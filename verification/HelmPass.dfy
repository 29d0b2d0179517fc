/** One Helm pass of a worker, and the companion teardown, against an abstract release store whose
    every call may fail, before or after taking effect. */
module HelmPass {
  import opened Wrappers
  import opened HelmOperations
  import opened HelmProtocol

  /** A declared companion; `readable` says whether its values parse. */
  datatype Companion = Companion(name: string, repository: string, readable: bool)

  function Names(companions: seq<Companion>): (names: seq<string>)
    ensures |names| == |companions|
    ensures forall i :: 0 <= i < |names| ==> names[i] == companions[i].name
  {
    seq(|companions|, i requires 0 <= i < |companions| => companions[i].name)
  }

  datatype Action = Repository(name: string, url: string) | Installs(key: Key) | Lists | Uninstalls(key: Key)

  /** One client call: whether it succeeded, and whether the caller held its render slot meanwhile. */
  datatype Call = Call(action: Action, ok: bool, holding: bool)

  /** The client interface of a host's namespace: four calls over the release store. */
  class HelmClient {
    var releases: Releases
    ghost var history: seq<Releases> // the store after every call that may change it
    ghost var calls: seq<Call>
    ghost const slot: Slot? // the render slot of the calling worker, if it took one

    constructor (releases: Releases, ghost slot: Slot?)
      ensures this.releases == releases && history == [releases] && calls == [] && this.slot == slot
    {
      this.releases, history, calls, this.slot := releases, [releases], [], slot;
    }

    ghost predicate Holding()
      reads slot
    {
      slot != null && !slot.released
    }

    /** Records a chart repository; it never touches a release. */
    method AddRepository(name: string, repository: string) returns (ok: bool)
      modifies this`calls
      ensures calls == old(calls) + [Call(Repository(name, repository), ok, Holding())]
    {
      ok := *;
      calls := calls + [Call(Repository(name, repository), ok, Holding())];
    }

    method InstallOrUpgrade(k: Key, owner: Option<string>) returns (ok: bool)
      modifies this`releases, this`history, this`calls
      ensures ok ==> releases == Install(old(releases), k, owner)
      ensures releases == old(releases) || releases == Install(old(releases), k, owner)
      ensures history == old(history) + [releases] && calls == old(calls) + [Call(Installs(k), ok, Holding())]
    {
      ok := *;
      var applied: bool := *;
      if ok || applied {
        releases := Install(releases, k, owner);
      }
      history := history + [releases];
      calls := calls + [Call(Installs(k), ok, Holding())];
    }

    method Uninstall(k: Key) returns (ok: bool)
      modifies this`releases, this`history, this`calls
      ensures ok ==> releases == Remove(old(releases), k)
      ensures releases == old(releases) || releases == Remove(old(releases), k)
      ensures history == old(history) + [releases] && calls == old(calls) + [Call(Uninstalls(k), ok, Holding())]
    {
      ok := *;
      var applied: bool := *;
      if ok || applied {
        releases := Remove(releases, k);
      }
      history := history + [releases];
      calls := calls + [Call(Uninstalls(k), ok, Holding())];
    }

    method ListReleases(host: Key) returns (ok: bool, names: seq<string>)
      modifies this`calls
      ensures ok ==> ListsOwned(releases, host, names)
      ensures !ok ==> names == []
      ensures calls == old(calls) + [Call(Lists, ok, Holding())]
    {
      ok, names := *, [];
      calls := calls + [Call(Lists, ok, Holding())];
      if ok {
        var rest := set k | k in releases && k.ns == host.ns && releases[k] == Some(host.name);
        while rest != {}
          invariant forall k :: k in rest ==> k in releases && k.ns == host.ns && releases[k] == Some(host.name)
          invariant forall n :: n in names ==> Owned(releases, host, n)
          invariant forall k :: k in releases && k.ns == host.ns && releases[k] == Some(host.name) ==>
                      k in rest || k.name in names
          decreases |rest|
        {
          var k :| k in rest;
          assert k == ReleaseKey(host, k.name);
          names, rest := names + [k.name], rest - {k};
        }
      }
    }
  }

  // ---------------------------------------------------------------- traces of calls

  function Actions(calls: seq<Call>): (r: seq<Action>)
    ensures |r| == |calls| && forall i :: 0 <= i < |r| ==> r[i] == calls[i].action
  {
    seq(|calls|, i requires 0 <= i < |calls| => calls[i].action)
  }

  /** The repository and install calls for the companions, up to the first whose values do not parse. */
  function Plan(host: Key, companions: seq<Companion>): seq<Action> {
    if companions == [] then []
    else if !companions[0].readable then Preparation(companions[0])
    else Preparation(companions[0]) + [Installs(ReleaseKey(host, companions[0].name))] + Plan(host, companions[1..])
  }

  function Preparation(c: Companion): seq<Action> {
    if c.repository != "" then [Repository(c.name, c.repository)] else []
  }

  /** The calls of the install half of a pass; there are none when the host's own values cannot be built. */
  function HostPlan(host: Key, buildable: bool, companions: seq<Companion>): seq<Action> {
    if buildable then [Installs(host)] + Plan(host, companions) else []
  }

  predicate AllReadable(companions: seq<Companion>) {
    forall c :: c in companions ==> c.readable
  }

  predicate AllOk(calls: seq<Call>) {
    forall call :: call in calls ==> call.ok
  }

  /** Nothing follows a failed call. */
  predicate StopsAtFailure(calls: seq<Call>) {
    forall i :: 0 <= i < |calls| - 1 ==> calls[i].ok
  }

  predicate Attempted(calls: seq<Call>, k: Key) {
    exists call :: call in calls && call.action == Uninstalls(k)
  }

  /** The calls follow the plan: all of it unless one failed, and nothing after that one. */
  ghost predicate Follows(calls: seq<Call>, plan: seq<Action>) {
    Actions(calls) <= plan && StopsAtFailure(calls) && (AllOk(calls) ==> Actions(calls) == plan)
  }

  predicate AllHolding(calls: seq<Call>, holding: bool) {
    forall call :: call in calls ==> call.holding == holding
  }

  /** No call uninstalls a release that the host still declares. */
  predicate SparesDeclared(calls: seq<Call>, host: Key, names: seq<string>) {
    forall call :: call in calls && call.action.Uninstalls? ==> !Declared(host, names, call.action.key)
  }

  /** A list call, then uninstalls only. */
  predicate IsPrune(calls: seq<Call>) {
    && |calls| > 0 && calls[0].action.Lists?
    && forall i :: 1 <= i < |calls| ==> calls[i].action.Uninstalls?
  }

  /** The calls made between two states of a client. */
  function Since(before: seq<Call>, after: seq<Call>): seq<Call>
    requires before <= after
  {
    after[|before|..]
  }

  /** How many calls the first `j` companions take: one to install each, and one more for a repository. */
  function CallsBefore(companions: seq<Companion>, j: nat): nat
    requires j <= |companions|
  {
    if j == 0 then 0 else (if companions[0].repository != "" then 2 else 1) + CallsBefore(companions[1..], j - 1)
  }

  /** Call by call: the host release first, then every companion in declared order; one with a repository has it
      recorded by the very call before its install. All of them, after a success. */
  ghost predicate InstallsInOrder(calls: seq<Call>, host: Key, companions: seq<Companion>, ok: bool) {
    && (calls != [] ==> calls[0].action == Installs(host))
    && (ok ==> |calls| == 1 + CallsBefore(companions, |companions|))
    && forall j :: 0 <= j < |companions| ==> CompanionInOrder(calls, host, companions, j)
  }

  predicate CompanionInOrder(calls: seq<Call>, host: Key, companions: seq<Companion>, j: nat)
    requires j < |companions|
  {
    var p, c := 1 + CallsBefore(companions, j), companions[j];
    if c.repository != "" then
      && (p < |calls| ==> calls[p].action == Repository(c.name, c.repository))
      && (p + 1 < |calls| ==> calls[p].ok && calls[p + 1].action == Installs(Key(host.ns, c.name)))
    else p < |calls| ==> calls[p].action == Installs(Key(host.ns, c.name))
  }

  lemma {:induction false} PlanAt(host: Key, companions: seq<Companion>, j: nat)
    requires j < |companions|
    ensures var plan, p, c := Plan(host, companions), CallsBefore(companions, j), companions[j];
            if c.repository != "" then
              && (p < |plan| ==> plan[p] == Repository(c.name, c.repository))
              && (p + 1 < |plan| ==> plan[p + 1] == Installs(Key(host.ns, c.name)))
            else p < |plan| ==> plan[p] == Installs(Key(host.ns, c.name))
    decreases j
  {
    if j > 0 {
      PlanAt(host, companions[1..], j - 1);
    }
  }

  lemma {:induction false} PlanLength(host: Key, companions: seq<Companion>)
    requires AllReadable(companions)
    ensures |Plan(host, companions)| == CallsBefore(companions, |companions|)
    decreases |companions|
  {
    if companions != [] {
      assert companions[0] in companions;
      PlanLength(host, companions[1..]);
    }
  }

  /** Calls that follow the plan come in that order. */
  lemma PlanInWords(calls: seq<Call>, host: Key, buildable: bool, companions: seq<Companion>, ok: bool)
    requires ok <==> buildable && AllReadable(companions) && AllOk(calls)
    requires Follows(calls, HostPlan(host, buildable, companions))
    ensures InstallsInOrder(calls, host, companions, ok)
  {
    var plan := HostPlan(host, buildable, companions);
    assert forall i :: 0 <= i < |calls| ==> calls[i].action == Actions(calls)[i] == plan[i];
    if ok {
      PlanLength(host, companions);
      assert |Actions(calls)| == |plan|;
    }
    forall j | 0 <= j < |companions|
      ensures CompanionInOrder(calls, host, companions, j)
    {
      PlanAt(host, companions, j);
      var p := 1 + CallsBefore(companions, j);
      assert p < |calls| ==> plan[p] == Plan(host, companions)[p - 1];
      assert p + 1 < |calls| ==> plan[p + 1] == Plan(host, companions)[p];
    }
  }

  /** The calls of the install half. It succeeds exactly when everything can be built and read and none failed. */
  ghost predicate InstallTrace(
    calls: seq<Call>, host: Key, buildable: bool, companions: seq<Companion>, holding: bool, ok: bool)
  {
    && (ok <==> buildable && AllReadable(companions) && AllOk(calls))
    && Follows(calls, HostPlan(host, buildable, companions))
    && AllHolding(calls, holding)
  }

  /** The calls of the prune. */
  ghost predicate PruneTrace(calls: seq<Call>, host: Key, names: seq<string>, holding: bool, ok: bool) {
    && (ok <==> AllOk(calls)) && StopsAtFailure(calls)
    && IsPrune(calls) && SparesDeclared(calls, host, names) && AllHolding(calls, holding)
  }

  /** The calls of a whole pass: the installs under the slot, and after a complete success of theirs the prune
      without it. */
  ghost predicate PassTrace(calls: seq<Call>, host: Key, buildable: bool, companions: seq<Companion>, ok: bool) {
    exists n ::
      && 0 <= n <= |calls|
      && InstallTrace(calls[..n], host, buildable, companions, true, calls[n..] != [])
      && InstallsInOrder(calls[..n], host, companions, calls[n..] != [])
      && (if calls[n..] == [] then !ok else PruneTrace(calls[n..], host, Names(companions), false, ok))
  }

  lemma {:induction false} PlanInstalls(host: Key, companions: seq<Companion>)
    ensures forall a :: a in Plan(host, companions) ==> a.Installs? || a.Repository?
    decreases |companions|
  {
    if companions != [] {
      PlanInstalls(host, companions[1..]);
    }
  }

  lemma InstallTraceSpares(
    calls: seq<Call>, host: Key, buildable: bool, companions: seq<Companion>, holding: bool, ok: bool,
    names: seq<string>)
    requires InstallTrace(calls, host, buildable, companions, holding, ok)
    ensures SparesDeclared(calls, host, names)
  {
    PlanInstalls(host, companions);
    forall call | call in calls
      ensures !call.action.Uninstalls?
    {
      var i :| 0 <= i < |calls| && calls[i] == call;
      assert Actions(calls)[i] == HostPlan(host, buildable, companions)[i];
      assert HostPlan(host, buildable, companions)[i] in HostPlan(host, buildable, companions);
    }
  }

  lemma AllOkAppends(a: seq<Call>, b: seq<Call>)
    ensures AllOk(a + b) <==> AllOk(a) && AllOk(b)
    ensures Actions(a + b) == Actions(a) + Actions(b)
  {
    assert forall call :: call in a + b <==> call in a || call in b;
  }

  lemma StopsAppends(a: seq<Call>, b: seq<Call>)
    requires AllOk(a) && StopsAtFailure(b)
    ensures StopsAtFailure(a + b)
  {
    forall i | 0 <= i < |a + b| - 1
      ensures (a + b)[i].ok
    {
      if i < |a| {
        assert (a + b)[i] in a;
      } else {
        assert (a + b)[i] == b[i - |a|];
      }
    }
  }

  /** A complete part of a plan, then the calls for the next part. */
  lemma FollowsAppends(a: seq<Call>, b: seq<Call>, p: seq<Action>, q: seq<Action>, plan: seq<Action>)
    requires AllOk(a) && Actions(a) + (p + q) == plan && Follows(b, p)
    ensures AllOk(b) ==> Actions(a + b) + q == plan
    ensures !AllOk(b) || q == [] ==> Follows(a + b, plan)
  {
    AllOkAppends(a, b);
    StopsAppends(a, b);
    assert Actions(a) + (p + q) == Actions(a) + p + q;
    if AllOk(b) && q == [] {
      assert Actions(a) + p + q == Actions(a) + p;
    }
  }

  lemma PlanStep(host: Key, companions: seq<Companion>, i: nat)
    requires i < |companions|
    ensures Plan(host, companions[i..])
         == Plan(host, [companions[i]]) + if companions[i].readable then Plan(host, companions[i + 1..]) else []
  {
    assert companions[i..][0] == companions[i] && companions[i..][1..] == companions[i + 1..];
    assert [companions[i]][1..] == [];
  }

  // ---------------------------------------------------------------- what a pass achieves

  predicate Declared(host: Key, names: seq<string>, k: Key) {
    k.ns == host.ns && k.name in names
  }

  predicate OwnedKey(m: Releases, host: Key, k: Key) {
    k in m && k.ns == host.ns && m[k] == Some(host.name)
  }

  /** The store once the host release and the companions `names` are installed. */
  function Installed(m: Releases, host: Key, names: seq<string>): Releases {
    map k | k in m.Keys + {host} + (set n | n in names :: ReleaseKey(host, n))
      :: if Declared(host, names, k) then Some(host.name) else if k in m then m[k] else None
  }

  /** The store without the undeclared ones among the releases `owned`. */
  function Pruned(m: Releases, host: Key, names: seq<string>, owned: seq<string>): Releases {
    map k | k in m && !(Declared(host, owned, k) && k.name !in names) :: m[k]
  }

  /** The store after a successful pass. */
  function Converged(m: Releases, host: Key, names: seq<string>): Releases {
    map k | k in Installed(m, host, names) && !(OwnedKey(Installed(m, host, names), host, k) && k.name !in names)
      :: Installed(m, host, names)[k]
  }

  /** Either every companion owned at the start still exists, or every declared one does. */
  ghost predicate NeverNeither(m: Releases, st: Releases, host: Key, names: seq<string>) {
    || (forall k :: OwnedKey(m, host, k) ==> k in st)
    || (forall k :: Declared(host, names, k) ==> k in st)
  }

  /** A release that is neither declared nor owned, nor the host's own, is the same in both stores. */
  ghost predicate OthersUntouched(m: Releases, st: Releases, host: Key, names: seq<string>) {
    forall k :: k != host && !Declared(host, names, k) && !OwnedKey(m, host, k) ==>
      (k in st <==> k in m) && (k in m ==> st[k] == m[k])
  }

  ghost predicate Fine(m: Releases, st: Releases, host: Key, names: seq<string>) {
    NeverNeither(m, st, host, names) && OthersUntouched(m, st, host, names)
  }

  ghost predicate AllFine(m: Releases, states: seq<Releases>, host: Key, names: seq<string>) {
    forall st :: st in states ==> Fine(m, st, host, names)
  }

  lemma InstalledFine(m: Releases, host: Key, names: seq<string>, i: nat)
    requires i <= |names|
    ensures Fine(m, Installed(m, host, names[..i]), host, names)
    ensures m.Keys <= Installed(m, host, names[..i]).Keys
  {
  }

  /** The store part of the way through the installs, or through the prune. */
  ghost predicate MidInstall(m: Releases, st: Releases, host: Key, names: seq<string>) {
    st == m || exists i :: 0 <= i <= |names| && st == Installed(m, host, names[..i])
  }

  ghost predicate MidPrune(m: Releases, st: Releases, host: Key, names: seq<string>, owned: seq<string>) {
    exists i :: 0 <= i <= |owned| && st == Pruned(Installed(m, host, names), host, names, owned[..i])
  }

  ghost predicate AllMidInstall(m: Releases, states: seq<Releases>, host: Key, names: seq<string>) {
    forall st :: st in states ==> MidInstall(m, st, host, names)
  }

  lemma MidInstallStep(
    m: Releases, host: Key, names: seq<string>, i: nat, st: Releases, st': Releases,
    states: seq<Releases>, more: seq<Releases>)
    requires i < |names| && st == Installed(m, host, names[..i]) && AllMidInstall(m, states, host, names)
    requires st' == st || st' == Install(st, ReleaseKey(host, names[i]), Some(host.name))
    requires more == [] || more == [st']
    ensures AllMidInstall(m, states + more, host, names)
    ensures Install(st, ReleaseKey(host, names[i]), Some(host.name)) == Installed(m, host, names[..i + 1])
  {
    InstalledStep(m, host, names, i);
    assert forall x :: x in states + more <==> x in states || x in more;
  }

  lemma MidInstallsFine(m: Releases, states: seq<Releases>, host: Key, names: seq<string>)
    requires AllMidInstall(m, states, host, names)
    ensures AllFine(m, states, host, names)
  {
    forall st | st in states
      ensures Fine(m, st, host, names)
    {
      if st != m {
        var i :| 0 <= i <= |names| && st == Installed(m, host, names[..i]);
        InstalledFine(m, host, names, i);
      }
    }
  }

  ghost predicate AllMidPrune(
    m: Releases, states: seq<Releases>, host: Key, names: seq<string>, owned: seq<string>)
  {
    forall st :: st in states ==> MidPrune(m, st, host, names, owned)
  }

  lemma MidPruneStep(
    m: Releases, host: Key, names: seq<string>, owned: seq<string>, i: nat, st: Releases, st': Releases,
    states: seq<Releases>)
    requires i < |owned| && owned[i] !in names && AllMidPrune(m, states, host, names, owned)
    requires st == Pruned(Installed(m, host, names), host, names, owned[..i])
    requires st' == st || st' == Remove(st, ReleaseKey(host, owned[i]))
    ensures AllMidPrune(m, states + [st'], host, names, owned)
  {
    PrunedStep(Installed(m, host, names), host, names, owned, i);
    assert MidPrune(m, st', host, names, owned);
  }

  lemma MidPrunesFine(m: Releases, states: seq<Releases>, host: Key, names: seq<string>, owned: seq<string>)
    requires ListsOwned(Installed(m, host, names), host, owned)
    requires AllMidPrune(m, states, host, names, owned)
    ensures AllFine(m, states, host, names)
  {
    forall st | st in states
      ensures Fine(m, st, host, names)
    {
      var i :| 0 <= i <= |owned| && st == Pruned(Installed(m, host, names), host, names, owned[..i]);
      PrunedFine(m, host, names, owned, i);
    }
  }

  lemma InstalledNone(m: Releases, host: Key, names: seq<string>)
    ensures Installed(m, host, names[..0]) == Install(m, host, None)
  {
  }

  lemma InstalledStep(m: Releases, host: Key, names: seq<string>, i: nat)
    requires i < |names|
    ensures Installed(m, host, names[..i + 1])
         == Install(Installed(m, host, names[..i]), ReleaseKey(host, names[i]), Some(host.name))
  {
    assert names[..i + 1] == names[..i] + [names[i]];
    var l, r := Installed(m, host, names[..i + 1]),
                Install(Installed(m, host, names[..i]), ReleaseKey(host, names[i]), Some(host.name));
    assert l.Keys == r.Keys;
  }

  lemma PrunedStep(m: Releases, host: Key, names: seq<string>, owned: seq<string>, i: nat)
    requires i < |owned|
    ensures Pruned(m, host, names, owned[..i + 1])
         == if owned[i] in names then Pruned(m, host, names, owned[..i])
            else Remove(Pruned(m, host, names, owned[..i]), ReleaseKey(host, owned[i]))
  {
    assert owned[..i + 1] == owned[..i] + [owned[i]];
  }

  lemma PrunedFine(m: Releases, host: Key, names: seq<string>, owned: seq<string>, i: nat)
    requires i <= |owned| && ListsOwned(Installed(m, host, names), host, owned)
    ensures Fine(m, Pruned(Installed(m, host, names), host, names, owned[..i]), host, names)
  {
    var m1 := Installed(m, host, names);
    var st := Pruned(m1, host, names, owned[..i]);
    assert forall n :: n in owned[..i] ==> Owned(m1, host, n);
    assert forall k :: k in m1 && Declared(host, owned[..i], k) ==> k == ReleaseKey(host, k.name);
  }

  lemma PrunedConverges(m: Releases, host: Key, names: seq<string>, owned: seq<string>)
    requires ListsOwned(Installed(m, host, names), host, owned)
    ensures Pruned(Installed(m, host, names), host, names, owned) == Converged(m, host, names)
  {
    var m1 := Installed(m, host, names);
    forall k | k in m1
      ensures Declared(host, owned, k) <==> OwnedKey(m1, host, k)
    {
      if Declared(host, owned, k) {
        assert Owned(m1, host, k.name) && ReleaseKey(host, k.name) == k;
      }
    }
  }

  // ---------------------------------------------------------------- the pass itself

  /** Everything from the installs to the prune. It succeeds exactly when the values can be built and read and
      no call fails, and it stops at the first failure. The render slot is held during the installs and given
      back before the prune. */
  method RunPass(
    client: HelmClient, host: Key, buildable: bool, companions: seq<Companion>, slots: RenderSlots, slot: Slot)
    returns (ok: bool)
    requires slots.Valid() && slot in slots.slots && !slot.released && client.slot == slot
    modifies client`releases, client`history, client`calls, slots`tokens, slot
    ensures slots.Valid()
    ensures old(client.history) <= client.history && old(client.calls) <= client.calls
    ensures PassTrace(Since(old(client.calls), client.calls), host, buildable, companions, ok)
    ensures ok <==> buildable && AllReadable(companions) && AllOk(Since(old(client.calls), client.calls))
    ensures SparesDeclared(Since(old(client.calls), client.calls), host, Names(companions))
    ensures ok ==> slot.released && client.releases == Converged(old(client.releases), host, Names(companions))
    ensures AllFine(old(client.releases), client.history[|old(client.history)|..], host, Names(companions))
  {
    ok := InstallAll(client, host, buildable, companions);
    ghost var states, calls := client.history, client.calls;
    if ok {
      slots.Release(slot);
      ok := PruneCompanions(client, host, Names(companions), old(client.releases));
      assert client.history[|old(client.history)|..] == states[|old(client.history)|..] + client.history[|states|..];
      TwoHalves(old(client.calls), calls, client.calls, host, buildable, companions, ok);
    } else {
      OneHalf(Since(old(client.calls), calls), host, buildable, companions);
    }
  }

  lemma OneHalf(calls: seq<Call>, host: Key, buildable: bool, companions: seq<Companion>)
    requires InstallTrace(calls, host, buildable, companions, true, false)
    ensures PassTrace(calls, host, buildable, companions, false)
    ensures SparesDeclared(calls, host, Names(companions))
  {
    assert calls[..|calls|] == calls && calls[|calls|..] == [];
    PlanInWords(calls, host, buildable, companions, false);
    InstallTraceSpares(calls, host, buildable, companions, true, false, Names(companions));
  }

  lemma TwoHalves(
    c0: seq<Call>, c1: seq<Call>, c2: seq<Call>, host: Key, buildable: bool, companions: seq<Companion>, ok: bool)
    requires c0 <= c1 <= c2
    requires InstallTrace(Since(c0, c1), host, buildable, companions, true, true)
    requires PruneTrace(Since(c1, c2), host, Names(companions), false, ok)
    ensures PassTrace(Since(c0, c2), host, buildable, companions, ok)
    ensures ok <==> AllOk(Since(c0, c2))
    ensures SparesDeclared(Since(c0, c2), host, Names(companions))
  {
    var a, b := Since(c0, c1), Since(c1, c2);
    var n := |a|;
    assert Since(c0, c2) == a + b;
    assert (a + b)[..n] == a && (a + b)[n..] == b;
    PlanInWords(a, host, buildable, companions, true);
    AllOkAppends(a, b);
    InstallTraceSpares(a, host, buildable, companions, true, true, Names(companions));
  }

  /** Builds the host chart's values, which may fail, and installs it without labels. */
  method ReconcileHostManagerChart(client: HelmClient, host: Key, buildable: bool) returns (ok: bool)
    modifies client`releases, client`history, client`calls
    ensures ok ==> client.releases == Install(old(client.releases), host, None)
    ensures client.releases == old(client.releases) || client.releases == Install(old(client.releases), host, None)
    ensures client.history == old(client.history) || client.history == old(client.history) + [client.releases]
    ensures ok ==> buildable
    ensures client.calls == old(client.calls)
                            + if buildable then [Call(Installs(host), ok, client.Holding())] else []
  {
    ok := false;
    if buildable {
      ok := client.InstallOrUpgrade(host, None);
    }
  }

  /** Records the repository and reads the values, either of which may fail, and installs with the owner label. */
  method ReconcileCompanionChart(client: HelmClient, host: Key, companion: Companion) returns (ok: bool)
    modifies client`releases, client`history, client`calls
    ensures var k := ReleaseKey(host, companion.name);
            && (ok ==> client.releases == Install(old(client.releases), k, Some(host.name)))
            && (client.releases == old(client.releases)
                || client.releases == Install(old(client.releases), k, Some(host.name)))
            && (client.history == old(client.history) || client.history == old(client.history) + [client.releases])
    ensures old(client.calls) <= client.calls
    ensures CompanionTrace(Since(old(client.calls), client.calls), host, companion, client.Holding(), ok)
  {
    ghost var done := [];
    if companion.repository != "" {
      ok := client.AddRepository(companion.name, companion.repository);
      done := [Call(Repository(companion.name, companion.repository), ok, client.Holding())];
      if !ok {
        CompanionTraceEnds(done, host, companion, client.Holding(), ok);
        assert Since(old(client.calls), client.calls) == done;
        return;
      }
    }
    ok := companion.readable;
    if ok {
      ok := client.InstallOrUpgrade(ReleaseKey(host, companion.name), Some(host.name));
      done := done + [Call(Installs(ReleaseKey(host, companion.name)), ok, client.Holding())];
    }
    CompanionTraceEnds(done, host, companion, client.Holding(), ok);
    assert Since(old(client.calls), client.calls) == done;
  }

  ghost predicate CompanionTrace(calls: seq<Call>, host: Key, companion: Companion, holding: bool, ok: bool) {
    && (ok <==> companion.readable && AllOk(calls))
    && Follows(calls, Plan(host, [companion])) && AllHolding(calls, holding)
  }

  lemma CompanionTraceEnds(calls: seq<Call>, host: Key, companion: Companion, holding: bool, ok: bool)
    requires var plan := Plan(host, [companion]);
             && |calls| <= |plan|
             && forall i :: 0 <= i < |calls| ==> calls[i].action == plan[i] && calls[i].holding == holding
    requires forall i :: 0 <= i < |calls| - 1 ==> calls[i].ok
    requires if |calls| == |Plan(host, [companion])|
             then ok <==> companion.readable && (calls != [] ==> calls[|calls| - 1].ok)
             else !ok && calls != [] && !calls[|calls| - 1].ok
    ensures CompanionTrace(calls, host, companion, holding, ok)
  {
    if calls != [] {
      assert calls[|calls| - 1] in calls;
    }
    assert forall i :: 0 <= i < |calls| ==> calls[i] in calls;
  }

  /** The host chart, then every companion in order, stopping at the first failure. */
  method InstallAll(client: HelmClient, host: Key, buildable: bool, companions: seq<Companion>) returns (ok: bool)
    modifies client`releases, client`history, client`calls
    ensures ok ==> client.releases == Installed(old(client.releases), host, Names(companions))
    ensures old(client.history) <= client.history && old(client.calls) <= client.calls
    ensures AllFine(old(client.releases), client.history[|old(client.history)|..], host, Names(companions))
    ensures InstallTrace(
              Since(old(client.calls), client.calls), host, buildable, companions, client.Holding(), ok)
  {
    ghost var m := client.releases;
    ok := ReconcileHostManagerChart(client, host, buildable);
    InstalledNone(m, host, Names(companions));
    ghost var states, done := client.history[|old(client.history)|..], Since(old(client.calls), client.calls);
    UnderwayStarts(host, buildable, companions, done, client.Holding(), ok);
    if ok {
      ghost var h, c := client.history, client.calls;
      ok := InstallCompanions(client, host, buildable, companions, m, done);
      states := states + client.history[|h|..];
      assert Since(old(client.calls), client.calls) == done + Since(c, client.calls);
    } else {
      UnderwayEnds(host, buildable, companions, 0, done, client.Holding(), ok);
    }
    MidInstallsFine(m, states, host, Names(companions));
    assert client.history[|old(client.history)|..] == states;
  }

  method InstallCompanions(
    client: HelmClient, host: Key, buildable: bool, companions: seq<Companion>,
    ghost m: Releases, ghost done: seq<Call>)
    returns (ok: bool)
    requires client.releases == Installed(m, host, Names(companions)[..0])
    requires Underway(host, buildable, companions, 0, done, client.Holding(), true)
    modifies client`releases, client`history, client`calls
    ensures ok ==> client.releases == Installed(m, host, Names(companions))
    ensures old(client.history) <= client.history && old(client.calls) <= client.calls
    ensures AllMidInstall(m, client.history[|old(client.history)|..], host, Names(companions))
    ensures InstallTrace(
              done + Since(old(client.calls), client.calls), host, buildable, companions, client.Holding(), ok)
  {
    ok := true;
    var i := 0;
    assert done + Since(client.calls, client.calls) == done;
    while ok && i < |companions|
      invariant 0 <= i <= |companions|
      invariant ok ==> client.releases == Installed(m, host, Names(companions)[..i])
      invariant old(client.history) <= client.history && old(client.calls) <= client.calls
      invariant AllMidInstall(m, client.history[|old(client.history)|..], host, Names(companions))
      invariant Underway(
                  host, buildable, companions, i, done + Since(old(client.calls), client.calls), client.Holding(), ok)
      decreases |companions| - i
    {
      ok := InstallNext(
        client, host, buildable, companions, i, m, old(client.calls), done, old(client.history));
      i := i + 1;
    }
    UnderwayEnds(
      host, buildable, companions, i, done + Since(old(client.calls), client.calls), client.Holding(), ok);
    assert Names(companions)[..|companions|] == Names(companions);
  }

  /** One companion of the loop. */
  method InstallNext(
    client: HelmClient, host: Key, buildable: bool, companions: seq<Companion>, i: nat, ghost m: Releases,
    ghost c0: seq<Call>, ghost done: seq<Call>, ghost h0: seq<Releases>)
    returns (ok: bool)
    requires i < |companions| && client.releases == Installed(m, host, Names(companions)[..i])
    requires c0 <= client.calls
    requires Underway(host, buildable, companions, i, done + Since(c0, client.calls), client.Holding(), true)
    requires h0 <= client.history && AllMidInstall(m, client.history[|h0|..], host, Names(companions))
    modifies client`releases, client`history, client`calls
    ensures ok ==> client.releases == Installed(m, host, Names(companions)[..i + 1])
    ensures h0 <= client.history && AllMidInstall(m, client.history[|h0|..], host, Names(companions))
    ensures c0 <= client.calls
    ensures Underway(host, buildable, companions, i + 1, done + Since(c0, client.calls), client.Holding(), ok)
  {
    ghost var h, c, st := client.history, client.calls, client.releases;
    ok := ReconcileCompanionChart(client, host, companions[i]);
    StoreNext(m, host, Names(companions), i, st, client.releases, h0, h, client.history);
    CallsNext(host, buildable, companions, i, c0, c, client.calls, done, client.Holding(), ok);
  }

  lemma StoreNext(
    m: Releases, host: Key, names: seq<string>, i: nat, st: Releases, st': Releases,
    h0: seq<Releases>, h: seq<Releases>, h': seq<Releases>)
    requires i < |names| && st == Installed(m, host, names[..i])
    requires h0 <= h && AllMidInstall(m, h[|h0|..], host, names)
    requires st' == st || st' == Install(st, ReleaseKey(host, names[i]), Some(host.name))
    requires h' == h || h' == h + [st']
    ensures h0 <= h' && AllMidInstall(m, h'[|h0|..], host, names)
    ensures Install(st, ReleaseKey(host, names[i]), Some(host.name)) == Installed(m, host, names[..i + 1])
  {
    MidInstallStep(m, host, names, i, st, st', h[|h0|..], h'[|h|..]);
    assert h'[|h0|..] == h[|h0|..] + h'[|h|..];
  }

  lemma CallsNext(
    host: Key, buildable: bool, companions: seq<Companion>, i: nat, c0: seq<Call>, c: seq<Call>, c': seq<Call>,
    done: seq<Call>, holding: bool, ok: bool)
    requires i < |companions| && c0 <= c <= c'
    requires Underway(host, buildable, companions, i, done + Since(c0, c), holding, true)
    requires CompanionTrace(Since(c, c'), host, companions[i], holding, ok)
    ensures Underway(host, buildable, companions, i + 1, done + Since(c0, c'), holding, ok)
  {
    UnderwayStep(host, buildable, companions, i, done + Since(c0, c), Since(c, c'), holding, ok);
    assert done + Since(c0, c') == done + Since(c0, c) + Since(c, c');
  }

  /** Where the installs stand before companion `i`: so far so good, or the first failure is behind. */
  ghost predicate Underway(
    host: Key, buildable: bool, companions: seq<Companion>, i: nat, done: seq<Call>, holding: bool, ok: bool)
    requires i <= |companions|
  {
    && AllHolding(done, holding)
    && if ok then
         && buildable && AllOk(done) && (forall j :: 0 <= j < i ==> companions[j].readable)
         && Actions(done) + Plan(host, companions[i..]) == HostPlan(host, buildable, companions)
       else
         && Follows(done, HostPlan(host, buildable, companions))
         && !(buildable && AllReadable(companions) && AllOk(done))
  }

  lemma UnderwayStarts(
    host: Key, buildable: bool, companions: seq<Companion>, done: seq<Call>, holding: bool, ok: bool)
    requires done == if buildable then [Call(Installs(host), ok, holding)] else []
    requires ok ==> buildable
    ensures Underway(host, buildable, companions, 0, done, holding, ok)
  {
    assert companions[0..] == companions;
    if buildable {
      assert done[0] in done;
      assert Actions(done) == [Installs(host)];
    }
  }

  lemma UnderwayStep(
    host: Key, buildable: bool, companions: seq<Companion>, i: nat,
    done: seq<Call>, more: seq<Call>, holding: bool, ok: bool)
    requires i < |companions| && Underway(host, buildable, companions, i, done, holding, true)
    requires CompanionTrace(more, host, companions[i], holding, ok)
    ensures Underway(host, buildable, companions, i + 1, done + more, holding, ok)
  {
    var tail := if companions[i].readable then Plan(host, companions[i + 1..]) else [];
    PlanStep(host, companions, i);
    FollowsAppends(done, more, Plan(host, [companions[i]]), tail, HostPlan(host, buildable, companions));
    AllOkAppends(done, more);
    assert companions[i] in companions;
  }

  lemma UnderwayEnds(
    host: Key, buildable: bool, companions: seq<Companion>, i: nat, done: seq<Call>, holding: bool, ok: bool)
    requires i <= |companions| && Underway(host, buildable, companions, i, done, holding, ok)
    requires ok ==> i == |companions|
    ensures InstallTrace(done, host, buildable, companions, holding, ok)
  {
    if ok {
      assert Actions(done) + [] == Actions(done);
      assert forall j :: 0 <= j < |done| ==> done[j] in done;
    }
  }

  /** Uninstalls what is owned but no longer declared, stopping at the first error. */
  method PruneCompanions(client: HelmClient, host: Key, names: seq<string>, ghost m: Releases) returns (ok: bool)
    requires client.releases == Installed(m, host, names)
    modifies client`releases, client`history, client`calls
    ensures ok ==> client.releases == Converged(m, host, names)
    ensures old(client.history) <= client.history && old(client.calls) <= client.calls
    ensures AllFine(m, client.history[|old(client.history)|..], host, names)
    ensures PruneTrace(Since(old(client.calls), client.calls), host, names, client.Holding(), ok)
  {
    var owned;
    ok, owned := client.ListReleases(host);
    ghost var done := [Call(Lists, ok, client.Holding())];
    assert client.calls[|old(client.calls)|..] == done && done[0] in done;
    if !ok {
      return;
    }
    ok := PruneOwned(client, host, names, owned, m, done);
    assert client.calls[|old(client.calls)|..] == done + client.calls[|old(client.calls)| + 1..];
  }

  /** The loop over the owned companions. */
  method PruneOwned(
    client: HelmClient, host: Key, names: seq<string>, owned: seq<string>, ghost m: Releases, ghost list: seq<Call>)
    returns (ok: bool)
    requires client.releases == Installed(m, host, names) && ListsOwned(client.releases, host, owned)
    requires PruneTrace(list, host, names, client.Holding(), true)
    modifies client`releases, client`history, client`calls
    ensures ok ==> client.releases == Converged(m, host, names)
    ensures old(client.history) <= client.history && old(client.calls) <= client.calls
    ensures AllFine(m, client.history[|old(client.history)|..], host, names)
    ensures PruneTrace(list + Since(old(client.calls), client.calls), host, names, client.Holding(), ok)
  {
    ghost var m1 := client.releases;
    ok := true;
    var i := 0;
    assert list + Since(client.calls, client.calls) == list;
    while ok && i < |owned|
      invariant 0 <= i <= |owned|
      invariant ok ==> client.releases == Pruned(m1, host, names, owned[..i])
      invariant old(client.history) <= client.history && old(client.calls) <= client.calls
      invariant AllMidPrune(m, client.history[|old(client.history)|..], host, names, owned)
      invariant PruneTrace(list + Since(old(client.calls), client.calls), host, names, client.Holding(), ok)
      decreases |owned| - i
    {
      PrunedStep(m1, host, names, owned, i);
      if owned[i] !in names {
        ghost var st, h, c := client.releases, client.history, client.calls;
        ok := client.Uninstall(ReleaseKey(host, owned[i]));
        MidPruneStep(m, host, names, owned, i, st, client.releases, h[|old(client.history)|..]);
        assert client.history[|old(client.history)|..] == h[|old(client.history)|..] + [client.releases];
        PruneTraceStep(list + Since(old(client.calls), c),
                       Call(Uninstalls(ReleaseKey(host, owned[i])), ok, client.Holding()), host, names);
        assert list + Since(old(client.calls), client.calls)
            == list + Since(old(client.calls), c)
               + [Call(Uninstalls(ReleaseKey(host, owned[i])), ok, client.Holding())];
      }
      i := i + 1;
    }
    assert owned[..|owned|] == owned;
    PrunedConverges(m, host, names, owned);
    MidPrunesFine(m, client.history[|old(client.history)|..], host, names, owned);
  }

  lemma PruneTraceStep(done: seq<Call>, call: Call, host: Key, names: seq<string>)
    requires PruneTrace(done, host, names, call.holding, true)
    requires call.action.Uninstalls? && !Declared(host, names, call.action.key)
    ensures PruneTrace(done + [call], host, names, call.holding, call.ok)
  {
    assert forall j :: 0 <= j < |done| ==> done[j] in done;
    assert call in done + [call];
  }

  // ---------------------------------------------------------------- what convergence means

  /** From any store, a successful pass leaves exactly the declared companions labelled for the host, and
      every release that is neither declared nor labelled for the host as it was. The host's own release is
      present unless it was itself labelled as a companion of the host that is no longer declared: labels
      survive the upgrade, so the prune of the same pass removes it. */
  lemma PassConverges(m: Releases, host: Key, names: seq<string>)
    ensures forall n :: Owned(Converged(m, host, names), host, n) <==> n in names
    ensures OthersUntouched(m, Converged(m, host, names), host, names)
    ensures host in Converged(m, host, names) <==> !(OwnedKey(m, host, host) && host.name !in names)
  {
    var st := Converged(m, host, names);
    forall n
      ensures Owned(st, host, n) <==> n in names
    {
      var k := ReleaseKey(host, n);
      assert n in names ==> k in Installed(m, host, names);
    }
    assert host == ReleaseKey(host, host.name);
  }

  /** Repeating a successful pass changes nothing, except to bring back a host release the first one pruned. */
  lemma RepeatIsIdentityIff(m: Releases, host: Key, names: seq<string>)
    ensures var st := Converged(m, host, names);
            Converged(st, host, names) == st <==> !(OwnedKey(m, host, host) && host.name !in names)
  {
    PassConverges(m, host, names);
    var st := Converged(m, host, names);
    PassConverges(st, host, names);
    if host in st {
      var st2 := Converged(st, host, names);
      assert forall k :: OwnedKey(st, host, k) ==> Owned(st, host, k.name);
      assert st2.Keys == st.Keys;
    }
  }

  // ---------------------------------------------------------------- companion teardown

  /** The loop that collects the targets: what is owned, then what is declared and not yet seen. */
  method CollectTargets(owned: seq<string>, names: seq<string>) returns (targets: seq<string>)
    ensures targets == owned + Missing(names, owned)
  {
    targets := owned;
    var seen := owned;
    var i := 0;
    while i < |names|
      invariant 0 <= i <= |names|
      invariant targets + Missing(names[i..], seen) == owned + Missing(names, owned)
    {
      assert names[i..][1..] == names[i + 1..];
      if names[i] !in seen {
        targets, seen := targets + [names[i]], seen + [names[i]];
      }
      i := i + 1;
    }
    assert names[i..] == [];
  }

  /** The store without the companions of the host, owned or declared. */
  function Without(m: Releases, host: Key, names: seq<string>): Releases {
    map k | k in m && !OwnedKey(m, host, k) && !Declared(host, names, k) :: m[k]
  }

  function RemoveAll(m: Releases, host: Key, targets: seq<string>): Releases {
    map k | k in m && !Declared(host, targets, k) :: m[k]
  }

  /** Every owned or declared companion is attempted whatever fails; the result is nil exactly when the
      listing and every uninstall succeeded, and then none of them is left and nothing else is touched. */
  method UninstallCompanions(client: HelmClient, host: Key, names: seq<string>) returns (ok: bool)
    modifies client`releases, client`history, client`calls
    ensures old(client.calls) < client.calls
    ensures var calls := client.calls[|old(client.calls)|..];
            && (ok <==> AllOk(calls)) && calls[0].action == Lists
            && (!calls[0].ok ==> |calls| == 1 && client.releases == old(client.releases))
            && (calls[0].ok ==>
                  forall k :: Attempted(calls, k)
                              <==> OwnedKey(old(client.releases), host, k) || Declared(host, names, k))
    ensures ok ==> client.releases == Without(old(client.releases), host, names)
  {
    var listed, owned := client.ListReleases(host);
    ghost var list := Call(Lists, listed, client.Holding());
    assert client.calls[|old(client.calls)|..] == [list];
    if !listed {
      assert list in [list];
      return false;
    }
    var targets := CollectTargets(owned, names);
    ghost var m, done := client.releases, [];
    ok := true;
    var i := 0;
    while i < |targets|
      invariant 0 <= i <= |targets| && |done| == i
      invariant client.calls == old(client.calls) + [list] + done
      invariant forall j :: 0 <= j < i ==> done[j].action == Uninstalls(ReleaseKey(host, targets[j]))
      invariant ok <==> AllOk(done)
      invariant ok ==> client.releases == RemoveAll(m, host, targets[..i])
    {
      RemoveAllStep(m, host, targets, i);
      var gone := client.Uninstall(ReleaseKey(host, targets[i]));
      ok := ok && gone;
      done := done + [Call(Uninstalls(ReleaseKey(host, targets[i])), gone, client.Holding())];
      i := i + 1;
    }
    assert targets[..i] == targets;
    assert client.calls[|old(client.calls)|..] == [list] + done;
    TargetsAttempted(m, host, names, owned, done);
    AttemptedAfterList(list, done);
  }

  lemma AttemptedAfterList(list: Call, done: seq<Call>)
    requires list.ok && list.action.Lists?
    ensures AllOk([list] + done) <==> AllOk(done)
    ensures forall k :: Attempted([list] + done, k) <==> Attempted(done, k)
  {
    assert forall call :: call in [list] + done <==> call == list || call in done;
  }

  lemma RemoveAllStep(m: Releases, host: Key, targets: seq<string>, i: nat)
    requires i < |targets|
    ensures RemoveAll(m, host, targets[..i + 1])
         == Remove(RemoveAll(m, host, targets[..i]), ReleaseKey(host, targets[i]))
  {
    assert targets[..i + 1] == targets[..i] + [targets[i]];
  }

  /** The targets are the companions of the host, owned or declared. */
  lemma TargetsCover(m: Releases, host: Key, names: seq<string>, owned: seq<string>)
    requires ListsOwned(m, host, owned)
    ensures forall k :: Declared(host, owned + Missing(names, owned), k)
                        <==> OwnedKey(m, host, k) || Declared(host, names, k)
    ensures RemoveAll(m, host, owned + Missing(names, owned)) == Without(m, host, names)
  {
    MissingIsDeclared(names, owned);
    forall k
      ensures Declared(host, owned + Missing(names, owned), k) <==> OwnedKey(m, host, k) || Declared(host, names, k)
    {
      if k.ns == host.ns && k.name in owned {
        assert Owned(m, host, k.name) && ReleaseKey(host, k.name) == k;
      }
    }
  }

  lemma TargetsAttempted(m: Releases, host: Key, names: seq<string>, owned: seq<string>, done: seq<Call>)
    requires ListsOwned(m, host, owned)
    requires var targets := owned + Missing(names, owned);
             |done| == |targets|
             && forall j :: 0 <= j < |targets| ==> done[j].action == Uninstalls(ReleaseKey(host, targets[j]))
    ensures forall k :: Attempted(done, k) <==> OwnedKey(m, host, k) || Declared(host, names, k)
    ensures RemoveAll(m, host, owned + Missing(names, owned)) == Without(m, host, names)
  {
    var targets := owned + Missing(names, owned);
    TargetsCover(m, host, names, owned);
    forall k
      ensures Attempted(done, k) <==> Declared(host, targets, k)
    {
      if Declared(host, targets, k) {
        var j :| 0 <= j < |targets| && targets[j] == k.name;
        assert done[j] in done;
      }
    }
  }

  lemma {:induction false} MissingIsDeclared(names: seq<string>, seen: seq<string>)
    ensures forall n :: n in Missing(names, seen) ==> n in names && n !in seen
    decreases |names|
  {
    if names != [] {
      MissingIsDeclared(names[1..], if names[0] in seen then seen else seen + [names[0]]);
    }
  }
}
