/** What becomes of a failed Helm call: it is recorded as a failure, with its message, and the host launches again. */
module HelmFailure {
  import opened Wrappers
  import opened HelmOperations
  import opened HostStatus
  import opened HelmProtocol
  import opened HelmSafety
  import opened HelmRuns
  import HelmSuccess
  import HelmTeardown
  import HelmUniqueness

  /** Each attribute a worker writes at its end, exactly. A patch names only what differs from the copy the worker
      read, so a value stands afterwards if and only if it was not there to begin with, or is still stored. */
  lemma OutcomeIsRecordedIff(c: Config, s: State, id: nat, now: string, s': State)
    requires id in s.workers && s.workers[id].pc.WriteStatus? && s.workers[id].host in s.world.server
    requires Next(c, s, WorkerStep(id, At(now))) == Some(s')
    ensures s'.workers == s.workers[id := s.workers[id].(pc := Clear)]
    ensures s.workers[id].host in s'.world.server
    ensures var w := s.workers[id];
            var base, a := w.pc.base, s.world.server[w.host].attributes;
            var b := s'.world.server[w.host].attributes;
            && StandsIff(base, a, b, "helm.release.hash", w.hash)
            && StandsIff(base, a, b, "helm.release.owner", c.controllerId)
            && (match w.pc.err
                case Some(message) =>
                  && StandsIff(base, a, b, "helm.release.status", "failed")
                  && StandsIff(base, a, b, "helm.release.error", message)
                  && StandsIff(base, a, b, "helm.release.last-attempt", now)
                case None =>
                  && StandsIff(base, a, b, "helm.release.status", "completed")
                  && GoneIff(base, a, b, "helm.release.error")
                  && GoneIff(base, a, b, "helm.release.last-attempt"))
  {
    var w := s.workers[id];
    var target := MarkOutcome(w.pc.base, w.pc.err, w.hash, c.controllerId, now);
    OutcomeInWords(w.pc.base, w.pc.err, w.hash, c.controllerId, now);
    var a := s.world.server[w.host].attributes;
    assert s'.world.server[w.host].attributes == Apply(Diff(w.pc.base, target), a);
    PatchedKey(w.pc.base, target, a, "helm.release.hash");
    PatchedKey(w.pc.base, target, a, "helm.release.owner");
    PatchedKey(w.pc.base, target, a, "helm.release.status");
    PatchedKey(w.pc.base, target, a, "helm.release.error");
    PatchedKey(w.pc.base, target, a, "helm.release.last-attempt");
  }

  // ---------------------------------------------------------------- a failed call is never reported as a success

  /** The step at which a worker stands makes a call, to Helm or for its client. */
  predicate Calling(w: Worker) {
    match w.pc
    case BuildClient(_) => true
    case InstallHost(_) => true
    case InstallCompanion(spec, next) => next < |spec.companions|
    case ListStale(_) => true
    case Prune(spec, todo) => todo != [] && todo[0] !in spec.companions
    case _ => false
  }

  /** The worker has only this error to report, or nothing. */
  predicate Reporting(w: Worker, message: string) {
    w.pc.Clear? || w.pc.DeferredRelease? || ((w.pc.ReadStatus? || w.pc.WriteStatus?) && w.pc.err == Some(message))
  }

  lemma FailedCallReports(c: Config, s: State, id: nat, message: string, applied: bool, s': State)
    requires Safe(c, s) && id in s.workers && Calling(s.workers[id])
    requires Next(c, s, WorkerStep(id, Failed(message, applied))) == Some(s')
    ensures id in s'.workers && s'.workers[id] == s.workers[id].(pc := ReadStatus(Some(message)))
    ensures s'.world.server == s.world.server && s'.world.active == s.world.active
  {
  }

  /** A failed call is what gets reported. Whatever runs after a call of a worker's has failed, the worker writes no
      other outcome than a failure with that call's message. */
  lemma FailureIsReported(
    c: Config, s: State, id: nat, message: string, applied: bool, s1: State, ls: seq<Label>, s': State)
    requires Safe(c, s) && id in s.workers && Calling(s.workers[id])
    requires Next(c, s, WorkerStep(id, Failed(message, applied))) == Some(s1) && Exec(c, s1, ls) == Some(s')
    requires id in s'.workers && s'.workers[id].pc.WriteStatus?
    ensures s'.workers[id].pc.err == Some(message)
  {
    FailedCallReports(c, s, id, message, applied, s1);
    StepKeepsSafe(c, s, WorkerStep(id, Failed(message, applied)), s1);
    ReportsOnly(c, s1, ls, s', id, message);
  }

  /** So does a worker that finds no client factory. */
  lemma NoFactoryIsReported(c: Config, s: State, id: nat, s1: State, ls: seq<Label>, s': State)
    requires Safe(c, s) && id in s.workers && s.workers[id].pc.FirstRead? && !c.hasFactory
    requires s.workers[id].host in s.world.server
    requires Next(c, s, WorkerStep(id, Done)) == Some(s1) && Exec(c, s1, ls) == Some(s')
    ensures id in s1.workers && s1.workers[id].pc.ReadStatus?
    ensures id in s'.workers && s'.workers[id].pc.WriteStatus? ==>
              s'.workers[id].pc.err == Some("HelmClientFactory is nil")
  {
    StepKeepsSafe(c, s, WorkerStep(id, Done), s1);
    if id in s'.workers {
      ReportsOnly(c, s1, ls, s', id, "HelmClientFactory is nil");
    }
  }

  lemma {:induction false} ReportsOnly(c: Config, s: State, ls: seq<Label>, s': State, id: nat, message: string)
    requires Safe(c, s) && id in s.workers && Reporting(s.workers[id], message)
    requires Exec(c, s, ls) == Some(s') && id in s'.workers
    ensures Reporting(s'.workers[id], message)
    decreases |ls|
  {
    if ls != [] {
      var m := Next(c, s, ls[0]).value;
      StepKeepsSafe(c, s, ls[0], m);
      if id in m.workers {
        StepReportsOnly(c, s, ls[0], m, id, message);
        ReportsOnly(c, m, ls[1..], s', id, message);
      } else {
        HelmTeardown.EndedStaysEnded(c, m, ls[1..], s', id);
      }
    }
  }

  lemma StepReportsOnly(c: Config, s: State, l: Label, s': State, id: nat, message: string)
    requires Safe(c, s) && id in s.workers && Reporting(s.workers[id], message)
    requires Next(c, s, l) == Some(s') && id in s'.workers
    ensures Reporting(s'.workers[id], message)
  {
    if l.WorkerStep? && l.id == id {
      OwnStepReportsOnly(c, s.world, s.workers[id], l.o, WorkerNext(c, s.world, s.workers[id], l.o).value, message);
    } else {
      HelmSuccess.OtherStepKeepsPc(c, s, l, s', id);
    }
  }

  lemma OwnStepReportsOnly(c: Config, s: World, w: Worker, o: Outcome, r: WorkerResult, message: string)
    requires Reporting(w, message) && WorkerNext(c, s, w, o) == Some(r) && r.worker.Some?
    ensures Reporting(r.worker.value, message)
  {
  }

  /** A worker that may not go on leaves without a word: when its host cannot be read or is gone, or is being deleted at
      the re-read, or the worker is cancelled while it waits, it makes no Helm call and writes no status any more. */
  lemma LeavesQuietly(c: Config, s: State, id: nat, o: Outcome, s1: State, ls: seq<Label>, s': State)
    requires Safe(c, s) && id in s.workers && Next(c, s, WorkerStep(id, o)) == Some(s1) && Exec(c, s1, ls) == Some(s')
    requires var w := s.workers[id];
             || (w.pc.FirstRead? && (o.Failed? || w.host !in s.world.server))
             || (w.pc.AwaitSlot? && o.Failed? && c.concurrency > 0)
             || (w.pc.ReRead? && (o.Failed? || w.host !in s.world.server || s.world.server[w.host].deleting))
    ensures s1.world == s.world
    ensures id in s'.workers ==> s'.workers[id].pc.Clear? || s'.workers[id].pc.DeferredRelease?
  {
    StepKeepsSafe(c, s, WorkerStep(id, o), s1);
    if id in s'.workers {
      StaysQuiet(c, s1, ls, s', id);
    }
  }

  lemma {:induction false} StaysQuiet(c: Config, s: State, ls: seq<Label>, s': State, id: nat)
    requires Safe(c, s) && id in s.workers && (s.workers[id].pc.Clear? || s.workers[id].pc.DeferredRelease?)
    requires Exec(c, s, ls) == Some(s') && id in s'.workers
    ensures s'.workers[id].pc.Clear? || s'.workers[id].pc.DeferredRelease?
    decreases |ls|
  {
    if ls != [] {
      var m := Next(c, s, ls[0]).value;
      StepKeepsSafe(c, s, ls[0], m);
      if id in m.workers {
        if !(ls[0].WorkerStep? && ls[0].id == id) {
          HelmSuccess.OtherStepKeepsPc(c, s, ls[0], m, id);
        }
        StaysQuiet(c, m, ls[1..], s', id);
      } else {
        HelmTeardown.EndedStaysEnded(c, m, ls[1..], s', id);
      }
    }
  }

  // ---------------------------------------------------------------- and the host launches again

  /** A failure, from its status write to the end of its worker. */
  lemma RecordsFailure(c: Config, s: State, id: nat, message: string, now: string) returns (ls: seq<Label>, s': State)
    requires Safe(c, s) && id in s.workers && s.workers[id].pc == ReadStatus(Some(message))
    requires !s.workers[id].cancelled && s.workers[id].host in s.world.server
    ensures Steady(ls) && Exec(c, s, ls) == Some(s') && Safe(c, s')
    ensures s'.workers == s.workers - {id} && s'.reconciles == s.reconciles
    ensures s'.world.configuration == s.world.configuration
    ensures s'.world.active == ClearEntry(s.world.active, s.workers[id].host, s.workers[id].hash)
    ensures var h, w := s.workers[id].host, s.workers[id];
            && h in s'.world.server
            && s'.world.server[h] == s.world.server[h].(attributes := s'.world.server[h].attributes)
            && var a := s'.world.server[h].attributes;
               && Has(a, "helm.release.status", "failed") && Has(a, "helm.release.error", message)
               && Has(a, "helm.release.last-attempt", now) && Has(a, "helm.release.hash", w.hash)
  {
    var w := s.workers[id];
    var record, m := Records(c, s, id, now);
    OutcomeInWords(s.world.server[w.host].attributes, Some(message), w.hash, c.controllerId, now);
    var end;
    end, s' := Finishes(c, m, id);
    ls := record + end;
    ExecAppend(c, s, record, end);
    assert s'.workers == s.workers - {id};
  }

  /** A failure is not final. Read and written with nothing in between, it leaves the host recorded as failed, so up
      to date for no hash; and once the worker has ended, a reconcile may launch a new one for the current inputs. */
  lemma FailureIsRetried(c: Config, s: State, id: nat, message: string, now: string)
    returns (ls: seq<Label>, s1: State, more: seq<Label>, s': State)
    requires Safe(c, s) && id in s.workers && s.workers[id].pc == ReadStatus(Some(message)) && !s.workers[id].cancelled
    requires var h := s.workers[id].host;
             && h in s.world.server && !s.world.server[h].deleting && s.world.server[h].finalizer
             && h !in s.reconciles
             && var hash := c.hashOf(s.world.server[h].spec, s.world.configuration);
                hash == s.workers[id].hash || !IsActive(s.world.active, h, hash)
    ensures Steady(ls) && Exec(c, s, ls) == Some(s1) && s1.workers == s.workers - {id}
    ensures var h := s.workers[id].host;
            && h in s1.world.server && Has(s1.world.server[h].attributes, "helm.release.status", "failed")
            && (forall hash :: !UpToDate(s1.world.server[h].attributes, hash))
    ensures Reconciling(more) && Exec(c, s1, more) == Some(s') && s1.nextCtx !in s1.workers
    ensures var h := s.workers[id].host;
            && s1.nextCtx in s'.workers
            && s'.workers[s1.nextCtx]
               == Worker(h, c.hashOf(s.world.server[h].spec, s.world.configuration), false, false, FirstRead)
  {
    ls, s1 := RecordsFailure(c, s, id, message, now);
    var h := s.workers[id].host;
    assert !UpToDate(s1.world.server[h].attributes, s.workers[id].hash);
    more, s' := Launches(c, s1, h);
  }
}
