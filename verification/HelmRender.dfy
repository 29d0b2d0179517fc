/** What a worker renders against what it was launched for: it records its launch hash, but renders the spec
    that it re-read. */
module HelmRender {
  import opened Wrappers
  import opened HelmOperations
  import opened HostStatus
  import opened HelmProtocol
  import opened HelmSafety
  import opened HelmPass
  import opened HelmRuns
  import opened HelmTeardown

  /** The inputs of host `h` are left alone: nobody edits its spec, creates it again, or reconfigures the cluster. */
  predicate InputsUntouched(h: Key, ls: seq<Label>) {
    forall l :: l in ls ==>
      !l.Configure? && !(l.EditSpec? && l.host == h) && !(l.CreateHost? && l.host == h)
  }

  predicate BeforeReRead(pc: WorkerPc) {
    pc.Prepared? || pc.FirstRead? || pc.AwaitSlot? || pc.ReRead?
  }

  /** What worker `id` has yet to read, or did read, has the hash it was launched for. */
  ghost predicate Matches(c: Config, s: State, id: nat) {
    id in s.workers ==>
      var w := s.workers[id];
      && (BeforeReRead(w.pc) && w.host in s.world.server ==>
            c.hashOf(s.world.server[w.host].spec, s.world.configuration) == w.hash)
      && (HelmPhase(w.pc) ==> c.hashOf(w.pc.spec, s.world.configuration) == w.hash)
  }

  lemma HelmStepKeepsMatch(c: Config, s: State, i: nat, o: Outcome, r: WorkerResult, id: nat)
    requires Matches(c, s, id) && i in s.workers && HelmNext(s.world, s.workers[i], o) == Some(r)
    ensures Matches(c, CommitWorker(s, i, r), id)
  {
    HelmTouches(s.world, s.workers[i], o, r);
    HelmKeepsSpec(s.world, s.workers[i], o, r);
  }

  lemma FinishStepKeepsMatch(c: Config, s: State, i: nat, o: Outcome, r: WorkerResult, id: nat)
    requires Matches(c, s, id) && i in s.workers && FinishNext(c, s.world, s.workers[i], o) == Some(r)
    ensures Matches(c, CommitWorker(s, i, r), id)
  {
    FinishTouches(c, s.world, s.workers[i], o, r);
  }

  lemma QueueStepKeepsMatch(c: Config, s: State, i: nat, o: Outcome, r: WorkerResult, id: nat)
    requires Matches(c, s, id) && i in s.workers && QueueNext(c, s.world, s.workers[i], o) == Some(r)
    ensures Matches(c, CommitWorker(s, i, r), id)
  {
    QueueTouches(c, s.world, s.workers[i], o, r);
  }

  lemma WorkerKeepsMatch(c: Config, s: State, i: nat, o: Outcome, r: WorkerResult, id: nat)
    requires Matches(c, s, id) && i in s.workers && WorkerNext(c, s.world, s.workers[i], o) == Some(r)
    ensures Matches(c, CommitWorker(s, i, r), id)
  {
    var pc := s.workers[i].pc;
    if HelmPhase(pc) {
      HelmStepKeepsMatch(c, s, i, o, r, id);
    } else if pc.ReadStatus? || pc.WriteStatus? || pc.Clear? || pc.DeferredRelease? {
      FinishStepKeepsMatch(c, s, i, o, r, id);
    } else {
      QueueStepKeepsMatch(c, s, i, o, r, id);
    }
  }

  /** A reconcile never touches a spec or the configuration. */
  ghost predicate SpecsKept(s: World, s': World) {
    && s'.configuration == s.configuration
    && forall h :: h in s'.server ==> h in s.server && s'.server[h].spec == s.server[h].spec
  }

  lemma ReconcileKeepsSpecs(c: Config, s: World, unused: nat, g: Key, r: Reconcile, o: Outcome, res: ReconcileResult)
    requires ReconcileNext(c, s, unused, g, r, o) == Some(res)
    ensures SpecsKept(s, res.world)
  {
    if Framing(r) {
      FrameKeepsSpecs(s, g, r, o, res);
    } else if Deciding(r) {
      DecideKeepsSpecs(c, s, unused, g, r, o, res);
    } else if Pending(r) {
    } else {
      TeardownKeepsSpecs(s, g, r, o, res);
    }
  }

  lemma FrameKeepsSpecs(s: World, g: Key, r: Reconcile, o: Outcome, res: ReconcileResult)
    requires FrameNext(s, g, r, o) == Some(res)
    ensures SpecsKept(s, res.world)
  {
  }

  lemma DecideKeepsSpecs(c: Config, s: World, unused: nat, g: Key, r: Reconcile, o: Outcome, res: ReconcileResult)
    requires DecideNext(c, s, unused, g, r, o) == Some(res)
    ensures SpecsKept(s, res.world)
  {
  }

  lemma TeardownKeepsSpecs(s: World, g: Key, r: Reconcile, o: Outcome, res: ReconcileResult)
    requires TeardownNext(s, g, r, o) == Some(res)
    ensures SpecsKept(s, res.world)
  {
  }

  lemma ActKeepsMatch(c: Config, s: State, g: Key, res: ReconcileResult, id: nat)
    requires Matches(c, s, id) && id in s.workers && id < s.nextCtx && SpecsKept(s.world, res.world)
    requires res.action.Start? && res.action.ctx == id ==> s.workers[id].pc.Prepared?
    ensures Matches(c, CommitReconcile(s, g, res), id)
    ensures s.nextCtx <= CommitReconcile(s, g, res).nextCtx
    ensures id in CommitReconcile(s, g, res).workers ==>
              && CommitReconcile(s, g, res).workers[id].host == s.workers[id].host
              && CommitReconcile(s, g, res).workers[id].hash == s.workers[id].hash
  {
  }

  lemma StepKeepsMatch(c: Config, s: State, l: Label, s': State, h: Key, id: nat)
    requires Safe(c, s) && Matches(c, s, id) && Next(c, s, l) == Some(s') && InputsUntouched(h, [l])
    requires id < s.nextCtx && (id in s.workers ==> s.workers[id].host == h)
    ensures Matches(c, s', id) && id < s'.nextCtx
    ensures id in s'.workers ==>
              id in s.workers && s'.workers[id].host == h && s'.workers[id].hash == s.workers[id].hash
  {
    assert l in [l];
    match l
    case WorkerStep(i, o) =>
      var r := WorkerNext(c, s.world, s.workers[i], o).value;
      WorkerKeepsMatch(c, s, i, o, r, id);
      WorkerEffect(c, s.world, s.workers[i], o, r);
    case ReconcileStep(g, o) =>
      if g in s.reconciles {
        var res := ReconcileNext(c, s.world, s.nextCtx, g, s.reconciles[g], o).value;
        ReconcileKeepsSpecs(c, s.world, s.nextCtx, g, s.reconciles[g], o, res);
        if res.action.Start? {
          StartsPrepared(c, s, g, o, res);
        }
        if id in s.workers {
          ActKeepsMatch(c, s, g, res, id);
        }
      }
    case Restart =>
    case _ =>
  }

  lemma StartsPrepared(c: Config, s: State, g: Key, o: Outcome, res: ReconcileResult)
    requires Safe(c, s) && g in s.reconciles
    requires ReconcileNext(c, s.world, s.nextCtx, g, s.reconciles[g], o) == Some(res) && res.action.Start?
    ensures res.action.ctx in s.workers && s.workers[res.action.ctx].pc.Prepared?
  {
    if !Pending(s.reconciles[g]) {
      ReconcileEffect(c, s.world, s.nextCtx, g, s.reconciles[g], o, res);
    }
  }

  // ---------------------------------------------------------------- main results

  /** A worker launched for the hash of its host's current inputs renders inputs of that hash, whatever else
      runs, as long as those inputs are left alone. */
  lemma {:induction false} UntouchedInputsAreRendered(c: Config, s: State, ls: seq<Label>, s': State, id: nat)
    requires Safe(c, s) && id in s.workers && Matches(c, s, id)
    requires InputsUntouched(s.workers[id].host, ls) && Exec(c, s, ls) == Some(s')
    requires id in s'.workers && HelmPhase(s'.workers[id].pc)
    ensures c.hashOf(s'.workers[id].pc.spec, s'.world.configuration) == s.workers[id].hash
    decreases |ls|
  {
    if ls != [] {
      var m := Next(c, s, ls[0]).value;
      var h := s.workers[id].host;
      StepKeepsSafe(c, s, ls[0], m);
      assert ls[0] in ls;
      StepKeepsMatch(c, s, ls[0], m, h, id);
      if id in m.workers {
        UntouchedInputsAreRendered(c, m, ls[1..], s', id);
      } else {
        EndedStaysEnded(c, m, ls[1..], s', id);
      }
    }
  }

  /** Exactly when a queued worker renders what it was launched for: if and only if the host's inputs still have
      the launch hash, every later run that leaves them alone renders inputs of that hash. */
  lemma RendersLaunchedIff(c: Config, s: State, id: nat)
    requires Safe(c, s) && id in s.workers && Queued(c, s.workers[id].pc)
    requires s.workers[id].host in s.world.server && !s.world.server[s.workers[id].host].deleting
    ensures c.hashOf(s.world.server[s.workers[id].host].spec, s.world.configuration) == s.workers[id].hash
       <==> forall ls, s' ::
              InputsUntouched(s.workers[id].host, ls) && Exec(c, s, ls) == Some(s')
              && id in s'.workers && HelmPhase(s'.workers[id].pc)
              ==> c.hashOf(s'.workers[id].pc.spec, s'.world.configuration) == s.workers[id].hash
  {
    var w := s.workers[id];
    if c.hashOf(s.world.server[w.host].spec, s.world.configuration) == w.hash {
      forall ls, s' | InputsUntouched(w.host, ls) && Exec(c, s, ls) == Some(s')
                      && id in s'.workers && HelmPhase(s'.workers[id].pc)
        ensures c.hashOf(s'.workers[id].pc.spec, s'.world.configuration) == w.hash
      {
        UntouchedInputsAreRendered(c, s, ls, s', id);
      }
    } else {
      var ls, s' := MayReachClient(c, s, id);
      assert InputsUntouched(w.host, ls);
    }
  }

  /** The whole success of a queued worker that is not cancelled. */
  lemma Succeeds(c: Config, s: State, id: nat) returns (ls: seq<Label>, s': State)
    requires Safe(c, s) && id in s.workers && Queued(c, s.workers[id].pc) && !s.workers[id].cancelled
    requires s.workers[id].host in s.world.server && !s.world.server[s.workers[id].host].deleting
    ensures Exec(c, s, ls) == Some(s') && Safe(c, s')
    ensures var h, w := s.workers[id].host, s.workers[id];
            var obj := s.world.server[h];
            && s'.world.server == s.world.server[
                 h := obj.(attributes := MarkOutcome(obj.attributes, None, w.hash, c.controllerId, ""))]
            && s'.world.configuration == s.world.configuration && RenderedFrom(s'.world, h, obj.spec)
            && s'.world.releases == Converged(s.world.releases, h, obj.spec.companions)
  {
    var spec := s.world.server[s.workers[id].host].spec;
    var reach, s1 := MayReachClient(c, s, id);
    var pass, s2 := RunsThrough(c, s1, id, spec);
    var record;
    record, s' := Records(c, s2, id, "");
    ls := reach + pass + record;
    ExecAppend(c, s, reach, pass);
    ExecAppend(c, s, reach + pass, record);
  }

  /** What such an edit can do, for every spec of another hash. Edit while the worker waits before its re-read, and
      edit back once it has re-read: the release is rendered from the edit, its success is recorded under the hash of
      the spec that is back, and the next reconcile finds the host up to date. */
  lemma EditAndBackGoesUnnoticed(c: Config, s: State, id: nat, other: HostSpec) returns (ls: seq<Label>, s': State)
    requires Safe(c, s) && id in s.workers && Queued(c, s.workers[id].pc) && Matches(c, s, id)
    requires !s.workers[id].cancelled
    requires s.workers[id].host in s.world.server && !s.world.server[s.workers[id].host].deleting
    requires c.hashOf(other, s.world.configuration) != s.workers[id].hash
    ensures Exec(c, s, ls) == Some(s')
    ensures var h := s.workers[id].host;
            && h in s'.world.server && s'.world.server[h].spec == s.world.server[h].spec
            && UpToDate(s'.world.server[h].attributes, c.hashOf(s'.world.server[h].spec, s'.world.configuration))
            && RenderedFrom(s'.world, h, other)
            && c.hashOf(other, s'.world.configuration)
               != c.hashOf(s'.world.server[h].spec, s'.world.configuration)
            && s'.world.releases == Converged(s.world.releases, h, other.companions)
  {
    var h, spec := s.workers[id].host, s.world.server[s.workers[id].host].spec;
    var there, back := [EditSpec(h, other)], [EditSpec(h, spec)];
    var s1 := Edits(c, s, h, other);
    var work, s2 := Succeeds(c, s1, id);
    s' := Edits(c, s2, h, spec);
    ls := there + work + back;
    ExecAppend(c, s, there, work);
    ExecAppend(c, s, there + work, back);
  }
}
