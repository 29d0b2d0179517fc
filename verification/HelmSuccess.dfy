/** When a worker's success is right: its host's releases are what its spec says at the moment it is recorded. */
module HelmSuccess {
  import opened Wrappers
  import opened HelmOperations
  import opened HelmProtocol
  import opened HelmSafety
  import opened HelmRuns
  import opened HelmSteps
  import opened HelmConvergence
  import HelmPass
  import HelmRender
  import HelmTeardown

  /** The declared companions of these positions are labelled for the host. */
  ghost predicate Labelled(m: Releases, h: Key, names: seq<string>) {
    forall n :: n in names ==> Owned(m, h, n)
  }

  /** How far the pass of worker `w` has come, with everything before that point in place. */
  ghost predicate OnCourse(s: World, w: Worker, spec: HostSpec) {
    match w.pc
    case BuildClient(sp) => sp == spec
    case InstallHost(sp) => sp == spec
    case InstallCompanion(sp, n) =>
      && sp == spec && n <= |spec.companions|
      && HostCurrent(s, w.host, spec) && Labelled(s.releases, w.host, spec.companions[..n])
    case ReleaseSlot(sp) =>
      sp == spec && HostCurrent(s, w.host, spec) && Labelled(s.releases, w.host, spec.companions)
    case ListStale(sp) =>
      sp == spec && HostCurrent(s, w.host, spec) && Labelled(s.releases, w.host, spec.companions)
    case Prune(sp, todo) =>
      && sp == spec && HostCurrent(s, w.host, spec) && Labelled(s.releases, w.host, spec.companions)
      && forall n :: Owned(s.releases, w.host, n) ==> n in spec.companions || n in todo
    case ReadStatus(err) => err == None ==> Right(s, w.host, spec)
    case WriteStatus(err, _) => err == None ==> Right(s, w.host, spec)
    case Clear => true
    case DeferredRelease => true
    case _ => false
  }

  /** The releases of the host are what its spec says. */
  ghost predicate Right(s: World, h: Key, spec: HostSpec) {
    HostCurrent(s, h, spec) && DeclaredExactly(s.releases, h, spec)
  }

  /** Nothing falls behind: the host's release stays current, declared companions stay labelled, and no undeclared
      one becomes so. */
  ghost predicate NothingLost(s: World, s': World, h: Key, spec: HostSpec) {
    && (HostCurrent(s, h, spec) ==> HostCurrent(s', h, spec))
    && (forall n :: n in spec.companions && Owned(s.releases, h, n) ==> Owned(s'.releases, h, n))
    && (forall n :: Owned(s'.releases, h, n) && n !in spec.companions ==> Owned(s.releases, h, n))
  }

  lemma LosesNothing(s: World, w: Worker, ch: Change, r: WorkerResult, h: Key, spec: HostSpec)
    requires Effect(s, w, ch, r) && w.host == h && WorkerApart(w, h, OwnNames(h, spec))
    requires w.pc.BuildClient? || w.pc.InstallHost? ==> w.pc.spec == spec
    requires Harmless(w.pc, spec)
    ensures NothingLost(s, r.world, h, spec)
  {
    if HostCurrent(s, h, spec) {
      OwnStepKeepsHost(s, w, ch, r, h, spec);
    }
    if w.pc.InstallCompanion? && w.pc.next < |w.pc.spec.companions| {
      assert w.pc.spec.companions[w.pc.next] in Remaining(w.pc);
    }
  }

  lemma UntouchedLosesNothing(s: World, s': World, h: Key, spec: HostSpec, cfg: string)
    requires Untouched(s, s', h, OwnNames(h, spec)) && s.configuration == cfg == s'.configuration
    ensures NothingLost(s, s', h, spec)
  {
    UntouchedKeepsRight(s, s', h, spec, cfg);
    forall n | n in spec.companions && Owned(s.releases, h, n)
      ensures Owned(s'.releases, h, n)
    {
      assert n in OwnNames(h, spec);
    }
  }

  lemma StepLosesNothing(c: Config, s: State, l: Label, s': State, h: Key, spec: HostSpec, cfg: string)
    requires Alone(c, s, h, spec, cfg) && LeavesAlone(h, OwnNames(h, spec), l) && Next(c, s, l) == Some(s')
    requires NoOtherRender(s, h, spec) && NoStaleWork(s, h, spec)
    ensures NothingLost(s.world, s'.world, h, spec)
  {
    if l.WorkerStep? && s.workers[l.id].host == h {
      var r := WorkerNext(c, s.world, s.workers[l.id], l.o).value;
      var ch := StepEffect(c, s.world, s.workers[l.id], l.o, r);
      LosesNothing(s.world, s.workers[l.id], ch, r, h, spec);
    } else {
      StepTouches(c, s, l, s', h, spec, cfg);
      StepKeepsAlone(c, s, l, s', h, spec, cfg);
      UntouchedLosesNothing(s.world, s'.world, h, spec, cfg);
    }
  }

  /** A worker that stands still stays on course. */
  lemma WaitingStaysOnCourse(s: World, w: Worker, s': World, w': Worker, spec: HostSpec)
    requires OnCourse(s, w, spec) && NothingLost(s, s', w.host, spec) && w'.host == w.host && w'.pc == w.pc
    ensures OnCourse(s', w', spec)
  {
    if w.pc.InstallCompanion? {
      assert forall n :: n in spec.companions[..w.pc.next] ==> n in spec.companions;
    }
  }

  lemma InstallingStaysOnCourse(s: World, w: Worker, ch: Change, r: WorkerResult, spec: HostSpec)
    requires OnCourse(s, w, spec) && Effect(s, w, ch, r) && r.worker.Some? && NothingLost(s, r.world, w.host, spec)
    requires r.worker.value.pc.InstallCompanion?
    ensures OnCourse(r.world, r.worker.value, spec)
  {
    var n := r.worker.value.pc.next;
    if w.pc.InstallCompanion? {
      assert spec.companions[..n] == spec.companions[..n - 1] + [spec.companions[n - 1]];
      assert forall m :: m in spec.companions[..n - 1] ==> m in spec.companions;
    }
  }

  lemma PruningStaysOnCourse(s: World, w: Worker, ch: Change, r: WorkerResult, spec: HostSpec)
    requires OnCourse(s, w, spec) && Effect(s, w, ch, r) && r.worker.Some? && NothingLost(s, r.world, w.host, spec)
    requires r.worker.value.pc.Prune?
    ensures OnCourse(r.world, r.worker.value, spec)
  {
    var todo := r.worker.value.pc.todo;
    forall n | Owned(r.world.releases, w.host, n) && n !in spec.companions
      ensures n in todo
    {
      assert Owned(s.releases, w.host, n);
      if w.pc.Prune? {
        assert n in w.pc.todo && w.pc.todo == [w.pc.todo[0]] + todo;
      } else {
        assert ReleaseKey(w.host, n).name in todo;
      }
    }
  }

  lemma StepStaysOnCourse(s: World, w: Worker, ch: Change, r: WorkerResult, spec: HostSpec)
    requires OnCourse(s, w, spec) && Effect(s, w, ch, r) && r.worker.Some? && NothingLost(s, r.world, w.host, spec)
    ensures OnCourse(r.world, r.worker.value, spec)
  {
    var pc := r.worker.value.pc;
    if pc.InstallCompanion? {
      InstallingStaysOnCourse(s, w, ch, r, spec);
    } else if pc.Prune? {
      PruningStaysOnCourse(s, w, ch, r, spec);
    } else if pc.ReleaseSlot? {
      assert spec.companions[..w.pc.next] == spec.companions;
    }
  }

  /** Another goroutine's step leaves a started worker where it stands. */
  lemma OtherStepKeepsPc(c: Config, s: State, l: Label, s': State, id: nat)
    requires Safe(c, s) && Next(c, s, l) == Some(s') && !(l.WorkerStep? && l.id == id)
    requires id in s.workers && !s.workers[id].pc.Prepared?
    ensures id in s'.workers ==> s'.workers[id].pc == s.workers[id].pc && s'.workers[id].host == s.workers[id].host
  {
    match l
    case ReconcileStep(g, o) =>
      if g in s.reconciles {
        var res := ReconcileNext(c, s.world, s.nextCtx, g, s.reconciles[g], o).value;
        if res.action.Start? {
          HelmRender.StartsPrepared(c, s, g, o, res);
        }
      }
    case _ =>
  }

  lemma StepKeepsCourse(c: Config, s: State, l: Label, s': State, id: nat, spec: HostSpec, cfg: string)
    requires id in s.workers && OnCourse(s.world, s.workers[id], spec) && id in s'.workers
    requires var h := s.workers[id].host;
             && Alone(c, s, h, spec, cfg) && LeavesAlone(h, OwnNames(h, spec), l) && Next(c, s, l) == Some(s')
             && NoOtherRender(s, h, spec) && NoStaleWork(s, h, spec)
    ensures s'.workers[id].host == s.workers[id].host && OnCourse(s'.world, s'.workers[id], spec)
  {
    var w := s.workers[id];
    StepLosesNothing(c, s, l, s', w.host, spec, cfg);
    if l.WorkerStep? && l.id == id {
      var r := WorkerNext(c, s.world, w, l.o).value;
      var ch := StepEffect(c, s.world, w, l.o, r);
      StepStaysOnCourse(s.world, w, ch, r, spec);
    } else {
      OtherStepKeepsPc(c, s, l, s', id);
      WaitingStaysOnCourse(s.world, w, s'.world, s'.workers[id], spec);
    }
  }

  lemma {:induction false} PassStaysOnCourse(
    c: Config, s: State, ls: seq<Label>, s': State, id: nat, spec: HostSpec, cfg: string)
    requires id in s.workers && OnCourse(s.world, s.workers[id], spec) && id in s'.workers
    requires var h := s.workers[id].host;
             && Alone(c, s, h, spec, cfg) && InputsAlone(h, OwnNames(h, spec), ls) && Exec(c, s, ls) == Some(s')
             && NoOtherRender(s, h, spec) && NoStaleWork(s, h, spec)
    ensures s'.workers[id].host == s.workers[id].host && OnCourse(s'.world, s'.workers[id], spec)
    decreases |ls|
  {
    if ls != [] {
      var m := Next(c, s, ls[0]).value;
      var h := s.workers[id].host;
      assert ls[0] in ls;
      StepKeepsAlone(c, s, ls[0], m, h, spec, cfg);
      if id in m.workers {
        StepKeepsCourse(c, s, ls[0], m, id, spec, cfg);
        StepKeepsRenders(c, s, ls[0], m, h, spec);
        StepKeepsHarmless(c, s, ls[0], m, h, spec);
        PassStaysOnCourse(c, m, ls[1..], s', id, spec, cfg);
      } else {
        StepKeepsSafe(c, s, ls[0], m);
        HelmTeardown.EndedStaysEnded(c, m, ls[1..], s', id);
      }
    }
  }

  // ---------------------------------------------------------------- the other direction

  /** The worker comes to its status write; nobody else moves. */
  lemma ComesToWrite(c: Config, s: State, id: nat, spec: HostSpec) returns (ls: seq<Label>, s': State)
    requires Safe(c, s) && id in s.workers && s.workers[id].pc == BuildClient(spec) && !s.workers[id].cancelled
    requires s.workers[id].host in s.world.server
    ensures Exec(c, s, ls) == Some(s') && Safe(c, s') && Ran(s, s', id, ls)
    ensures id in s'.workers && s'.workers[id].pc.WriteStatus? && s'.workers[id].pc.err == None
    ensures DeclaredExactly(s'.world.releases, s.workers[id].host, spec)
  {
    var pass, m := RunsThrough(c, s, id, spec);
    var l;
    l, s' := ReadsStatus(c, m, id);
    Nothing(c, s');
    Then(c, m, l, s', [], s');
    ls := pass + ([l] + []);
    ExecAppend(c, s, pass, [l] + []);
    HelmPass.PassConverges(s.world.releases, s.workers[id].host, spec.companions);
  }

  /** And then another worker of the host may break what it found. */
  lemma AnotherBreaks(c: Config, s: State, j: nat, h: Key, spec: HostSpec) returns (ls: seq<Label>, s': State)
    requires Safe(c, s) && j in s.workers && s.workers[j].host == h && DeclaredExactly(s.world.releases, h, spec)
    requires var pc := s.workers[j].pc;
             !Harmless(pc, spec) || ((pc.BuildClient? || pc.InstallHost?) && pc.spec != spec)
    ensures Exec(c, s, ls) == Some(s') && Ran(s, s', j, ls) && !Right(s'.world, h, spec)
  {
    if Harmless(s.workers[j].pc, spec) {
      ls, s' := RendersOther(c, s, j, h, spec);
    } else {
      ls, s' := BreaksDeclared(c, s, j, h, spec);
    }
  }

  lemma RanLeavesOthers(s: State, s': State, j: nat, ls: seq<Label>, i: nat)
    requires Ran(s, s', j, ls) && i != j && i in s.workers
    ensures i in s'.workers && s'.workers[i] == s.workers[i]
  {
    assert i in s.workers - {j};
    assert i in s'.workers - {j} && (s'.workers - {j})[i] == (s.workers - {j})[i];
  }

  /** A worker's success, spoilt. */
  lemma SuccessSpoilt(c: Config, s: State, id: nat, j: nat, spec: HostSpec) returns (ls: seq<Label>, s': State)
    requires Safe(c, s) && id in s.workers && s.workers[id].pc == BuildClient(spec) && !s.workers[id].cancelled
    requires s.workers[id].host in s.world.server
    requires j in s.workers && s.workers[j].host == s.workers[id].host
    requires var pc := s.workers[j].pc;
             !Harmless(pc, spec) || ((pc.BuildClient? || pc.InstallHost?) && pc.spec != spec)
    ensures Exec(c, s, ls) == Some(s') && (forall l :: l in ls ==> l.WorkerStep?)
    ensures id in s'.workers && s'.workers[id].pc.WriteStatus? && s'.workers[id].pc.err == None
    ensures !Right(s'.world, s.workers[id].host, spec)
  {
    assert Harmless(s.workers[id].pc, spec);
    var first, m := ComesToWrite(c, s, id, spec);
    RanLeavesOthers(s, m, id, first, j);
    var second;
    second, s' := AnotherBreaks(c, m, j, s.workers[id].host, spec);
    RanLeavesOthers(m, s', j, second, id);
    ls := first + second;
    ExecAppend(c, s, first, second);
  }

  // ---------------------------------------------------------------- main result

  /** When a success is right, exactly. A worker that is about to build its client will, in every later run that
      leaves the inputs of its host alone, have the host's releases as its spec says whenever it is about to record a
      success, if and only if no other worker of the host has stale work ahead: the install of its release from
      another spec or of an undeclared companion, or a list or prune that takes a declared one. */
  lemma PassIsRightIff(c: Config, s: State, id: nat, spec: HostSpec, cfg: string)
    requires id in s.workers && s.workers[id].pc == BuildClient(spec) && !s.workers[id].cancelled
    requires Alone(c, s, s.workers[id].host, spec, cfg)
    ensures var h := s.workers[id].host;
            (NoOtherRender(s, h, spec) && NoStaleWork(s, h, spec))
            <==> forall ls, s' :: InputsAlone(h, OwnNames(h, spec), ls) && Exec(c, s, ls) == Some(s')
                                  && id in s'.workers && s'.workers[id].pc.WriteStatus? && s'.workers[id].pc.err == None
                                  ==> Right(s'.world, h, spec)
  {
    var h := s.workers[id].host;
    if NoOtherRender(s, h, spec) && NoStaleWork(s, h, spec) {
      forall ls, s' | InputsAlone(h, OwnNames(h, spec), ls) && Exec(c, s, ls) == Some(s')
                      && id in s'.workers && s'.workers[id].pc.WriteStatus? && s'.workers[id].pc.err == None
        ensures Right(s'.world, h, spec)
      {
        PassStaysOnCourse(c, s, ls, s', id, spec, cfg);
      }
    } else {
      var j := StaleWorker(s, h, spec);
      var ls, s' := SuccessSpoilt(c, s, id, j, spec);
      assert InputsAlone(h, OwnNames(h, spec), ls);
    }
  }

  lemma StaleWorker(s: State, h: Key, spec: HostSpec) returns (j: nat)
    requires !NoOtherRender(s, h, spec) || !NoStaleWork(s, h, spec)
    ensures j in s.workers && s.workers[j].host == h
    ensures var pc := s.workers[j].pc;
            !Harmless(pc, spec) || ((pc.BuildClient? || pc.InstallHost?) && pc.spec != spec)
  {
    if !NoStaleWork(s, h, spec) {
      j :| j in s.workers && s.workers[j].host == h && !Harmless(s.workers[j].pc, spec);
    } else {
      j :| j in s.workers && s.workers[j].host == h
           && (s.workers[j].pc.BuildClient? || s.workers[j].pc.InstallHost?) && s.workers[j].pc.spec != spec;
    }
  }
}
