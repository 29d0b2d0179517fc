/** A rename of a companion: a superseded worker, past its slot, prunes what its successor has just installed. */
module HelmRename {
  import opened Wrappers
  import opened HelmOperations
  import opened HostStatus
  import opened HelmProtocol
  import opened HelmSafety
  import opened HelmPass
  import opened HelmRuns
  import HelmUpToDate

  /** A cancelled worker ends without a word. */
  lemma EndsCancelled(c: Config, s: State, id: nat) returns (ls: seq<Label>, s': State)
    requires Safe(c, s) && id in s.workers && s.workers[id].pc.ReadStatus? && s.workers[id].cancelled
    ensures Steady(ls) && Exec(c, s, ls) == Some(s') && s'.workers == s.workers - {id}
    ensures s'.world == s.world.(active := s'.world.active, tokens := s'.world.tokens)
  {
    var l := WorkerStep(id, Done);
    var m := Next(c, s, l).value;
    assert m == s.(workers := s.workers[id := s.workers[id].(pc := Clear)]);
    StepKeepsSafe(c, s, l, m);
    var rest;
    rest, s' := Finishes(c, m, id);
    assert s'.workers == s.workers - {id};
    Then(c, s, l, m, rest, s');
    ls := [l] + rest;
  }

  /** From a fresh controller to a worker past its slot, with all of its host's companions installed. */
  lemma InstallsFirst(c: Config, s0: State, h: Key) returns (ls: seq<Label>, s: State, m: Releases)
    requires Init(s0) && c.hasFactory && WillLaunch(c, s0, h)
    ensures Smooth(ls) && Exec(c, s0, ls) == Some(s) && HelmUpToDate.OneLaunched(c, s, h, s0.nextCtx)
    ensures s.world.server[h].spec == s0.world.server[h].spec && s.world.configuration == s0.world.configuration
    ensures s.workers[s0.nextCtx].pc == ListStale(s0.world.server[h].spec)
    ensures s.world.releases == Installed(m, h, s0.world.server[h].spec.companions)
  {
    var id, spec := s0.nextCtx, s0.world.server[h].spec;
    var launch, s1 := HelmUpToDate.FirstLaunch(c, s0, h);
    HelmUpToDate.SlotsFree(c, s1);
    var reach, s2 := ReachesClient(c, s1, id);
    var install;
    install, s := InstallsAll(c, s2, id, spec);
    m := s2.world.releases;
    OnlyWorkerTwice(s1, s2, s, id, BuildClient(spec), c.concurrency > 0, ListStale(spec), false);
    ls := launch + reach + install;
    ExecAppend(c, s0, launch, reach);
    ExecAppend(c, s0, launch + reach, install);
  }

  /** The successor has passed, up to its status, beside the worker that it superseded. */
  ghost predicate Converging(s: State, s': State, h: Key, id: nat, done: nat, hash: string, other: HostSpec) {
    && id in s.workers && id != done && s'.workers.Keys == {id, done}
    && s'.workers[id] == s.workers[id].(cancelled := true)
    && s'.workers[done] == Worker(h, hash, false, false, ReadStatus(None))
    && h in s'.world.server && s'.world.server[h].spec == other
    && s'.world.configuration == s.world.configuration && RenderedFrom(s'.world, h, other)
    && s'.world.releases == Converged(s.world.releases, h, other.companions)
  }

  lemma SuccessorPasses(c: Config, s: State, m: State, h: Key, id: nat, other: HostSpec)
    returns (ls: seq<Label>, s': State)
    requires HelmUpToDate.OneLaunched(c, s, h, id) && HelmUpToDate.Superseded(c, s, m, h, id, other)
    ensures Steady(ls) && Exec(c, m, ls) == Some(s') && Safe(c, s')
    ensures Converging(s, s', h, id, s.nextCtx, c.hashOf(other, s.world.configuration), other)
  {
    ls, s' := HelmUpToDate.PassesAlone(c, m, s.nextCtx);
  }

  /** The rename, and the successor's whole pass up to its status. */
  lemma SuccessorConverges(c: Config, s: State, h: Key, id: nat, other: HostSpec) returns (ls: seq<Label>, s': State)
    requires HelmUpToDate.OneLaunched(c, s, h, id)
    requires c.hashOf(other, s.world.configuration) != s.workers[id].hash
    ensures Smooth(ls) && Exec(c, s, ls) == Some(s') && Safe(c, s')
    ensures Converging(s, s', h, id, s.nextCtx, c.hashOf(other, s.world.configuration), other)
  {
    var launch, m := HelmUpToDate.SecondLaunch(c, s, h, id, other);
    var pass;
    pass, s' := SuccessorPasses(c, s, m, h, id, other);
    ls := launch + pass;
    ExecAppend(c, s, launch, pass);
  }

  /** The cancelled worker lists and prunes: of what is labelled for the host, its own names are left. */
  lemma PrunesForeign(c: Config, s: State, id: nat, spec: HostSpec) returns (ls: seq<Label>, s': State)
    requires id in s.workers && s.workers[id].pc == ListStale(spec) && !s.workers[id].slot
    ensures Steady(ls) && Exec(c, s, ls) == Some(s') && OnlyWorker(s, s', id, ReadStatus(None), false)
    ensures s'.world.rendered == s.world.rendered
    ensures forall n :: Owned(s.world.releases, s.workers[id].host, n) && n !in spec.companions ==>
              ReleaseKey(s.workers[id].host, n) !in s'.world.releases
    ensures forall k :: k in s'.world.releases ==>
              k in s.world.releases && s'.world.releases[k] == s.world.releases[k]
    ensures forall n :: Owned(s.world.releases, s.workers[id].host, n) && n in spec.companions ==>
              Owned(s'.world.releases, s.workers[id].host, n)
  {
    var owned, l, m := ListsStale(c, s, id, spec);
    assert owned[0..] == owned;
    assert Pruned(s.world.releases, s.workers[id].host, spec.companions, owned[..0]) == s.world.releases;
    var rest;
    rest, s' := PrunesRest(c, m, id, spec, owned, 0, s.world.releases);
    Then(c, s, l, m, rest, s');
    ls := [l] + rest;
  }

  /** What the two passes leave, release by release. */
  lemma NeitherIsLeft(m: Releases, h: Key, mine: seq<string>, others: seq<string>, m': Releases)
    requires var st := Converged(Installed(m, h, mine), h, others);
             && (forall n :: Owned(st, h, n) && n !in mine ==> ReleaseKey(h, n) !in m')
             && (forall k :: k in m' ==> k in st && m'[k] == st[k])
             && (forall n :: Owned(st, h, n) && n in mine ==> Owned(m', h, n))
    ensures forall n :: (n in mine) != (n in others) ==> ReleaseKey(h, n) !in m'
    ensures forall n :: Owned(m', h, n) <==> n in mine && n in others
  {
    var m1 := Installed(m, h, mine);
    var st := Converged(m1, h, others);
    PassConverges(m1, h, others);
    forall n | (n in mine) != (n in others)
      ensures ReleaseKey(h, n) !in m'
    {
      if n in mine {
        assert Owned(m1, h, n) && OwnedKey(Installed(m1, h, others), h, ReleaseKey(h, n));
        assert ReleaseKey(h, n) !in st;
      }
    }
    forall n
      ensures Owned(m', h, n) <==> n in mine && n in others
    {
      assert Owned(m', h, n) ==> Owned(st, h, n);
    }
  }

  /** The successor records its success, and both workers end. */
  lemma BothEnd(c: Config, s: State, h: Key, id: nat, done: nat) returns (ls: seq<Label>, s': State)
    requires Safe(c, s) && id != done && s.workers.Keys == {id, done} && h in s.world.server
    requires s.workers[id].pc.ReadStatus? && s.workers[id].cancelled
    requires s.workers[done] == Worker(h, s.workers[done].hash, false, false, ReadStatus(None))
    ensures Steady(ls) && Exec(c, s, ls) == Some(s') && s'.workers == map[]
    ensures s'.world.releases == s.world.releases && s'.world.rendered == s.world.rendered
    ensures s'.world.configuration == s.world.configuration
    ensures h in s'.world.server && s'.world.server[h].spec == s.world.server[h].spec
    ensures UpToDate(s'.world.server[h].attributes, s.workers[done].hash)
  {
    var record, s1 := Records(c, s, done, "");
    OutcomeIsUpToDate(s.world.server[h].attributes, s.workers[done].hash, c.controllerId);
    var first, s2 := Finishes(c, s1, done);
    var second;
    second, s' := EndsCancelled(c, s2, id);
    assert s'.workers.Keys == {};
    ls := record + first + second;
    ExecAppend(c, s, record, first);
    ExecAppend(c, s, record + first, second);
  }

  lemma OutcomeIsUpToDate(a: Attributes, hash: string, owner: string)
    ensures UpToDate(MarkOutcome(a, None, hash, owner, ""), hash)
  {
    assert |HELM_STATUS| == 19 && |HELM_HASH| == 17 && |HELM_ERROR| == 18;
    assert |HELM_OWNER| == 18 && |HELM_LAST_ATTEMPT| == 25;
  }

  /** From the two workers to the end. */
  lemma SupersededPrunes(
    c: Config, s1: State, s: State, h: Key, id: nat, done: nat, hash: string, spec: HostSpec, other: HostSpec,
    m: Releases) returns (ls: seq<Label>, s': State)
    requires Safe(c, s) && Converging(s1, s, h, id, done, hash, other)
    requires s1.workers[id].host == h && s1.workers[id].pc == ListStale(spec) && !s1.workers[id].slot
    requires s1.world.releases == Installed(m, h, spec.companions)
    ensures Steady(ls) && Exec(c, s, ls) == Some(s') && s'.workers == map[]
    ensures h in s'.world.server && s'.world.server[h].spec == other && RenderedFrom(s'.world, h, other)
    ensures s'.world.configuration == s.world.configuration && UpToDate(s'.world.server[h].attributes, hash)
    ensures forall n :: (n in spec.companions) != (n in other.companions) ==>
              ReleaseKey(h, n) !in s'.world.releases
    ensures forall n :: Owned(s'.world.releases, h, n) <==> n in spec.companions && n in other.companions
  {
    var prune, s3 := PrunesForeign(c, s, id, spec);
    NeitherIsLeft(m, h, spec.companions, other.companions, s3.world.releases);
    SafeAlways(c, s, prune, s3);
    var end;
    end, s' := BothEnd(c, s3, h, id, done);
    ls := prune + end;
    ExecAppend(c, s, prune, end);
  }

  /** A rename can leave the host with neither name. For every configuration, every host that is about to be launched
      and every spec of another hash there is a run from a fresh controller, without a failing call or a restart, that
      ends with no worker left and the host up to date for that spec, and rendered from it; and of the two specs'
      companions only those that both declare are installed. */
  lemma RenameLosesBoth(c: Config, s0: State, h: Key, other: HostSpec) returns (ls: seq<Label>, s': State)
    requires Init(s0) && c.hasFactory && WillLaunch(c, s0, h)
    requires c.hashOf(other, s0.world.configuration) != c.hashOf(s0.world.server[h].spec, s0.world.configuration)
    ensures Smooth(ls) && Exec(c, s0, ls) == Some(s') && s'.workers == map[]
    ensures h in s'.world.server && s'.world.server[h].spec == other && RenderedFrom(s'.world, h, other)
    ensures UpToDate(s'.world.server[h].attributes, c.hashOf(other, s'.world.configuration))
    ensures var spec := s0.world.server[h].spec;
            && (forall n :: (n in spec.companions) != (n in other.companions) ==>
                  ReleaseKey(h, n) !in s'.world.releases)
            && (forall n :: Owned(s'.world.releases, h, n) <==> n in spec.companions && n in other.companions)
  {
    var id, spec := s0.nextCtx, s0.world.server[h].spec;
    var first, s1, m := InstallsFirst(c, s0, h);
    var second, s2 := SuccessorConverges(c, s1, h, id, other);
    var third;
    third, s' := SupersededPrunes(
      c, s1, s2, h, id, s1.nextCtx, c.hashOf(other, s1.world.configuration), spec, other, m);
    ls := first + second + third;
    ExecAppend(c, s0, first, second);
    ExecAppend(c, s0, first + second, third);
  }
}
