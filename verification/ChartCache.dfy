/** The shared cache of chart archive paths: its two lock sections, and every interleaving of the calls that
    use them. */
module ChartCache {
  import opened Wrappers
  import opened Ordering

  /** What a call asks for: a chart, a version, and the hash of the credentials that may fetch it. */
  datatype Request = Request(chart: string, version: string, credentials: string)

  type Paths = map<string, string>

  /** The download of one request, deterministic when it succeeds. */
  type Loader = Request -> Option<string>

  function ChartPathKey(r: Request): string {
    r.chart + "@" + r.version + "#" + r.credentials
  }

  predicate WellFormed(r: Request) {
    '@' !in r.version && '#' !in r.credentials
  }

  /** A key names one request. */
  lemma KeyInjective(a: Request, b: Request)
    requires WellFormed(a) && WellFormed(b)
    ensures ChartPathKey(a) == ChartPathKey(b) <==> a == b
  {
    if ChartPathKey(a) == ChartPathKey(b) {
      assert ChartPathKey(a) == (a.chart + "@" + a.version) + ['#'] + a.credentials;
      assert ChartPathKey(b) == (b.chart + "@" + b.version) + ['#'] + b.credentials;
      SplitsOnce(a.chart + "@" + a.version, a.credentials, b.chart + "@" + b.version, b.credentials, '#');
      SplitsOnce(a.chart, a.version, b.chart, b.version, '@');
    }
  }

  /** Either character in the wrong place lets two requests share a key. */
  lemma KeyCollides()
    ensures var a, b := Request("c", "1@2", "h"), Request("c@1", "2", "h");
            a != b && ChartPathKey(a) == ChartPathKey(b)
    ensures var a, b := Request("c", "1", "2#h"), Request("c", "1#2", "h");
            a != b && ChartPathKey(a) == ChartPathKey(b)
  {
    assert ChartPathKey(Request("c", "1@2", "h")) == "c@1@2#h" == ChartPathKey(Request("c@1", "2", "h"));
    assert ChartPathKey(Request("c", "1", "2#h")) == "c@1#2#h" == ChartPathKey(Request("c", "1#2", "h"));
  }

  // ---------------------------------------------------------------- the lock sections

  /** Eviction keeps everything below the cap, and otherwise leaves one place free; any entry may go. */
  predicate EvictsTo(before: Paths, after: Paths, max: int) {
    && (forall k :: k in after ==> k in before && after[k] == before[k])
    && (if |before| < max then after == before else |after| == if max > 0 then max - 1 else 0)
  }

  predicate Bounded(paths: Paths, max: int) {
    |paths| <= if max > 0 then max else 1
  }

  /** Every entry is what its request downloads. */
  ghost predicate Coherent(paths: Paths, load: Loader) {
    forall k :: k in paths ==> exists r :: WellFormed(r) && ChartPathKey(r) == k && load(r) == Some(paths[k])
  }

  class ChartPathCache {
    const max: int
    var paths: Paths

    constructor (max: int)
      ensures this.max == max && paths == map[]
    {
      this.max, paths := max, map[];
    }

    /** The read section. */
    method Lookup(key: string) returns (path: Option<string>)
      ensures path == if key in paths then Some(paths[key]) else None
    {
      path := if key in paths then Some(paths[key]) else None;
    }

    /** The write section. */
    method Store(key: string, path: string)
      modifies this`paths
      ensures exists kept :: EvictsTo(old(paths), kept, max) && paths == kept[key := path]
      ensures Bounded(old(paths), max) ==> Bounded(paths, max)
    {
      Evict();
      ghost var kept := paths;
      StoreBound(kept, key, path);
      paths := paths[key := path];
      assert EvictsTo(old(paths), kept, max);
    }

    method Evict()
      modifies this`paths
      ensures EvictsTo(old(paths), paths, max)
    {
      if |paths| >= max {
        var rest := paths.Keys;
        while rest != {}
          invariant rest == paths.Keys
          invariant forall k :: k in paths ==> k in old(paths) && paths[k] == old(paths)[k]
          invariant |paths| >= max
          decreases |rest|
        {
          var k :| k in rest;
          rest := rest - {k};
          paths := paths - {k};
          assert |paths.Keys| == |paths|;
          if |paths| < max {
            break;
          }
        }
      }
    }

    /** Other calls' sections, between two of this one's. */
    method Interference(load: Loader)
      requires Coherent(paths, load) && Bounded(paths, max)
      modifies this`paths
      ensures Coherent(paths, load) && Bounded(paths, max)
    {
      var calls: int := *;
      while calls > 0
        invariant Coherent(paths, load) && Bounded(paths, max)
      {
        calls := calls - 1;
        var r: Request := *;
        if WellFormed(r) && load(r).Some? {
          ghost var before := paths;
          Store(ChartPathKey(r), load(r).value);
          StoreKeepsCoherent(before, paths, max, load, r);
        }
      }
    }

    /** A whole call. The download may also fail for a reason of the moment; a failure stores nothing. */
    method Get(r: Request, load: Loader) returns (path: Option<string>)
      requires WellFormed(r) && Coherent(paths, load) && Bounded(paths, max)
      modifies this`paths
      ensures Coherent(paths, load) && Bounded(paths, max)
      ensures path.Some? ==> path == load(r) && ChartPathKey(r) in paths && paths[ChartPathKey(r)] == path.value
      ensures ChartPathKey(r) in old(paths) ==>
                path == Some(old(paths)[ChartPathKey(r)]) == load(r) && paths == old(paths)
    {
      path := Lookup(ChartPathKey(r));
      if path.Some? {
        HitIsOwn(paths, load, r);
        return;
      }
      Interference(load);
      var blip: bool := *;
      if blip || load(r).None? {
        return None;
      }
      path := load(r);
      Interference(load);
      ghost var before := paths;
      Store(ChartPathKey(r), path.value);
      StoreKeepsCoherent(before, paths, max, load, r);
    }
  }

  lemma StoreBound(kept: Paths, key: string, path: string)
    ensures |kept[key := path]| <= |kept| + 1
  {
    assert kept[key := path].Keys == kept.Keys + {key};
  }

  lemma StoreKeepsCoherent(before: Paths, after: Paths, max: int, load: Loader, r: Request)
    requires Coherent(before, load) && WellFormed(r) && load(r).Some?
    requires exists kept :: EvictsTo(before, kept, max) && after == kept[ChartPathKey(r) := load(r).value]
    ensures Coherent(after, load)
  {
    forall k | k in after
      ensures exists q :: WellFormed(q) && ChartPathKey(q) == k && load(q) == Some(after[k])
    {
      if k != ChartPathKey(r) {
        var q :| WellFormed(q) && ChartPathKey(q) == k && load(q) == Some(before[k]);
      }
    }
  }

  /** A hit is the request's own download: it never crosses charts, versions or credentials. */
  lemma HitIsOwn(paths: Paths, load: Loader, r: Request)
    requires WellFormed(r) && Coherent(paths, load) && ChartPathKey(r) in paths
    ensures load(r) == Some(paths[ChartPathKey(r)])
  {
    var q :| WellFormed(q) && ChartPathKey(q) == ChartPathKey(r) && load(q) == Some(paths[ChartPathKey(r)]);
    KeyInjective(q, r);
  }

  // ---------------------------------------------------------------- all interleavings

  /** Where a call is: it missed, it downloaded, or it returned. */
  datatype Call =
    | Missed(request: Request)
    | Loaded(request: Request, path: string)
    | Done(request: Request, result: Option<string>)

  /** The cache and its calls; `loads` records the successful downloads by key. */
  datatype State = State(paths: Paths, calls: map<nat, Call>, loads: multiset<string>)

  datatype Step = Lookup(call: nat, request: Request) | Load(call: nat, fails: bool) | Store(call: nat, kept: Paths)

  const INIT := State(map[], map[], multiset{})

  function Next(max: int, load: Loader, s: State, step: Step): Option<State> {
    match step
    case Lookup(c, r) =>
      if c in s.calls then None
      else
        var k := ChartPathKey(r);
        Some(s.(calls := s.calls[c := if k in s.paths then Done(r, Some(s.paths[k])) else Missed(r)]))
    case Load(c, fails) =>
      if c !in s.calls || !s.calls[c].Missed? then None
      else
        var r := s.calls[c].request;
        if fails || load(r).None? then Some(s.(calls := s.calls[c := Done(r, None)]))
        else Some(s.(calls := s.calls[c := Loaded(r, load(r).value)], loads := s.loads + multiset{ChartPathKey(r)}))
    case Store(c, kept) =>
      if c !in s.calls || !s.calls[c].Loaded? || !EvictsTo(s.paths, kept, max) then None
      else
        var r, p := s.calls[c].request, s.calls[c].path;
        Some(s.(paths := kept[ChartPathKey(r) := p], calls := s.calls[c := Done(r, Some(p))]))
  }

  function Exec(max: int, load: Loader, s: State, steps: seq<Step>): Option<State>
    decreases |steps|
  {
    if steps == [] then Some(s)
    else
      match Exec(max, load, s, steps[..|steps| - 1])
      case None => None
      case Some(mid) => Next(max, load, mid, steps[|steps| - 1])
  }

  predicate RequestsWellFormed(steps: seq<Step>) {
    forall step :: step in steps && step.Lookup? ==> WellFormed(step.request)
  }

  predicate NoFailures(steps: seq<Step>) {
    forall step :: step in steps && step.Load? ==> !step.fails
  }

  /** What holds of a call whatever the others do. */
  predicate CallFine(load: Loader, call: Call) {
    && WellFormed(call.request)
    && (call.Loaded? ==> load(call.request) == Some(call.path))
    && (call.Done? && call.result.Some? ==> call.result == load(call.request))
  }

  ghost predicate Inv(max: int, load: Loader, s: State) {
    && Coherent(s.paths, load)
    && Bounded(s.paths, max)
    && (forall c :: c in s.calls ==> CallFine(load, s.calls[c]))
  }

  lemma StepKeepsInv(max: int, load: Loader, s: State, step: Step)
    requires Inv(max, load, s) && Next(max, load, s, step).Some?
    requires step.Lookup? ==> WellFormed(step.request)
    ensures Inv(max, load, Next(max, load, s, step).value)
  {
    match step
    case Lookup(c, r) =>
      if ChartPathKey(r) in s.paths {
        HitIsOwn(s.paths, load, r);
      }
    case Load(c, fails) =>
    case Store(c, kept) =>
      assert CallFine(load, s.calls[c]);
      StoreBound(kept, ChartPathKey(s.calls[c].request), s.calls[c].path);
  }

  lemma {:induction false} InvAlways(max: int, load: Loader, steps: seq<Step>)
    requires RequestsWellFormed(steps) && Exec(max, load, INIT, steps).Some?
    ensures Inv(max, load, Exec(max, load, INIT, steps).value)
    decreases |steps|
  {
    if steps != [] {
      var init, last := steps[..|steps| - 1], steps[|steps| - 1];
      assert last in steps;
      InvAlways(max, load, init);
      StepKeepsInv(max, load, Exec(max, load, INIT, init).value, last);
    }
  }

  /** The cache refines the direct download. After any interleaving of any calls, each that returned a path
      returned its own download's; where no download fails for a reason of the moment, each returned exactly
      what the direct call returns, errors included; and the size keeps to the cap. */
  lemma {:induction false} CacheRefinesLoad(max: int, load: Loader, steps: seq<Step>)
    requires RequestsWellFormed(steps) && Exec(max, load, INIT, steps).Some?
    ensures var s := Exec(max, load, INIT, steps).value;
            && Bounded(s.paths, max)
            && (forall c :: c in s.calls && s.calls[c].Done? && s.calls[c].result.Some?
                  ==> s.calls[c].result == load(s.calls[c].request))
            && (NoFailures(steps) ==> (forall c :: c in s.calls && s.calls[c].Done?
                                         ==> s.calls[c].result == load(s.calls[c].request)))
    decreases |steps|
  {
    InvAlways(max, load, steps);
    var s := Exec(max, load, INIT, steps).value;
    assert forall c :: c in s.calls ==> CallFine(load, s.calls[c]);
    if steps != [] && NoFailures(steps) {
      var init, last := steps[..|steps| - 1], steps[|steps| - 1];
      assert last in steps;
      CacheRefinesLoad(max, load, init);
    }
  }

  // ---------------------------------------------------------------- how often a key is downloaded

  function Busy(s: State, k: string): set<nat> {
    set c | c in s.calls && !s.calls[c].Done? && ChartPathKey(s.calls[c].request) == k
  }

  /** The step starts no call for `k` beside another one, and evicts no entry of `k`. */
  predicate OnceSafe(s: State, step: Step, k: string) {
    match step
    case Lookup(_, r) => ChartPathKey(r) == k ==> Busy(s, k) == {}
    case Store(_, kept) => k in s.paths ==> k in kept
    case Load(_, _) => true
  }

  /** Every step of a run from `s` is. */
  predicate OnceSafeRun(max: int, load: Loader, s: State, steps: seq<Step>, k: string)
    decreases |steps|
  {
    steps == [] ||
    var init, last := steps[..|steps| - 1], steps[|steps| - 1];
    && OnceSafeRun(max, load, s, init, k)
    && (Exec(max, load, s, init).Some? ==> OnceSafe(Exec(max, load, s, init).value, last, k))
  }

  /** A key is absent and not downloaded, or present and downloaded once, or one call is busy with it. */
  predicate AtMostOnce(s: State, k: string) {
    || (Busy(s, k) == {} && s.loads[k] == if k in s.paths then 1 else 0)
    || (k !in s.paths && exists c ::
          c in s.calls && Busy(s, k) == {c} && s.loads[k] == if s.calls[c].Loaded? then 1 else 0)
  }

  lemma StepKeepsAtMostOnce(max: int, load: Loader, s: State, step: Step, k: string)
    requires Next(max, load, s, step).Some? && AtMostOnce(s, k) && OnceSafe(s, step, k)
    ensures AtMostOnce(Next(max, load, s, step).value, k)
  {
    var t := Next(max, load, s, step).value;
    var c := step.call;
    if ChartPathKey(t.calls[c].request) == k {
      OwnStepKeepsAtMostOnce(max, load, s, step, k);
    } else {
      assert Busy(t, k) == Busy(s, k);
      if Busy(s, k) != {} {
        var d :| d in s.calls && Busy(s, k) == {d} && s.loads[k] == if s.calls[d].Loaded? then 1 else 0;
        assert d in Busy(s, k);
        assert t.calls[d] == s.calls[d];
      }
    }
  }

  lemma OneCallMoves(max: int, load: Loader, s: State, step: Step)
    requires Next(max, load, s, step).Some?
    ensures var t := Next(max, load, s, step).value;
            step.call in t.calls && t.calls == s.calls[step.call := t.calls[step.call]]
    ensures step.call in s.calls ==>
              && !s.calls[step.call].Done?
              && Next(max, load, s, step).value.calls[step.call].request == s.calls[step.call].request
  {
  }

  lemma BusyMoves(s: State, t: State, c: nat, k: string)
    requires c in t.calls && t.calls == s.calls[c := t.calls[c]]
    ensures Busy(t, k)
         == Busy(s, k) - {c} + if !t.calls[c].Done? && ChartPathKey(t.calls[c].request) == k then {c} else {}
  {
    forall d | d in s.calls && d != c
      ensures d in Busy(t, k) <==> d in Busy(s, k)
    {
      assert t.calls[d] == s.calls[d];
    }
    forall d
      ensures d in Busy(t, k) && d != c ==> d in Busy(s, k)
    {
    }
  }

  lemma OwnStepKeepsAtMostOnce(max: int, load: Loader, s: State, step: Step, k: string)
    requires Next(max, load, s, step).Some? && AtMostOnce(s, k) && OnceSafe(s, step, k)
    requires ChartPathKey(Next(max, load, s, step).value.calls[step.call].request) == k
    ensures AtMostOnce(Next(max, load, s, step).value, k)
  {
    var t := Next(max, load, s, step).value;
    var c := step.call;
    OneCallMoves(max, load, s, step);
    BusyMoves(s, t, c, k);
    if !step.Lookup? {
      assert c in Busy(s, k);
    }
  }

  /** A key is downloaded at most once while its calls do not overlap and it is not evicted. */
  lemma {:induction false} LoadedOnce(max: int, load: Loader, s: State, steps: seq<Step>, k: string)
    requires AtMostOnce(s, k) && OnceSafeRun(max, load, s, steps, k) && Exec(max, load, s, steps).Some?
    ensures AtMostOnce(Exec(max, load, s, steps).value, k)
    ensures Exec(max, load, s, steps).value.loads[k] <= 1
    decreases |steps|
  {
    if steps != [] {
      var init, last := steps[..|steps| - 1], steps[|steps| - 1];
      LoadedOnce(max, load, s, init, k);
      StepKeepsAtMostOnce(max, load, Exec(max, load, s, init).value, last, k);
    }
  }

  /** And so it is in every such run of a new cache. */
  lemma LoadedOnceFromStart(max: int, load: Loader, steps: seq<Step>, k: string)
    requires OnceSafeRun(max, load, INIT, steps, k) && Exec(max, load, INIT, steps).Some?
    ensures Exec(max, load, INIT, steps).value.loads[k] <= 1
  {
    assert Busy(INIT, k) == {};
    LoadedOnce(max, load, INIT, steps, k);
  }

  lemma TwoSteps(max: int, load: Loader, s: State, a: Step, b: Step, k: string)
    requires Next(max, load, s, a).Some? && Next(max, load, Next(max, load, s, a).value, b).Some?
    requires OnceSafe(s, a, k) && OnceSafe(Next(max, load, s, a).value, b, k)
    ensures Exec(max, load, s, [a, b]) == Next(max, load, Next(max, load, s, a).value, b)
    ensures OnceSafeRun(max, load, s, [a, b], k)
  {
    assert [a, b][..1] == [a] && [a][..0] == [];
    assert Exec(max, load, s, [a]) == Next(max, load, s, a);
    assert OnceSafeRun(max, load, s, [a], k);
  }

  lemma OneStep(max: int, load: Loader, s: State, a: Step, k: string)
    requires Next(max, load, s, a).Some? && OnceSafe(s, a, k)
    ensures Exec(max, load, s, [a]) == Next(max, load, s, a)
    ensures OnceSafeRun(max, load, s, [a], k)
  {
    assert [a][..0] == [];
  }

  /** A call that looks up a key beside another call for it: both download. */
  lemma OverlapLoadsTwice(max: int, load: Loader, s: State, c: nat, r: Request) returns (steps: seq<Step>, end: State)
    requires Inv(max, load, s) && AtMostOnce(s, ChartPathKey(r)) && Busy(s, ChartPathKey(r)) != {}
    requires c !in s.calls && WellFormed(r) && load(r).Some?
    ensures var s1 := Next(max, load, s, Lookup(c, r)).value;
            && OnceSafeRun(max, load, s1, steps, ChartPathKey(r)) && Exec(max, load, s1, steps) == Some(end)
    ensures end.loads[ChartPathKey(r)] == 2
  {
    var k := ChartPathKey(r);
    var d :| d in s.calls && Busy(s, k) == {d} && s.loads[k] == if s.calls[d].Loaded? then 1 else 0;
    assert d in Busy(s, k) && CallFine(load, s.calls[d]);
    KeyInjective(s.calls[d].request, r);
    var s1 := Next(max, load, s, Lookup(c, r)).value;
    assert s1.calls[c] == Missed(r) && s1.calls[d] == s.calls[d];
    var own := Load(c, false);
    if s.calls[d].Loaded? {
      OneStep(max, load, s1, own, k);
      steps, end := [own], Next(max, load, s1, own).value;
    } else {
      var other := Load(d, false);
      var s2 := Next(max, load, s1, other).value;
      assert s2.calls[c] == Missed(r);
      TwoSteps(max, load, s1, other, own, k);
      steps, end := [other, own], Next(max, load, s2, own).value;
    }
  }

  /** An entry that another call's store evicts is downloaded again by the next call for it. */
  lemma EvictionLoadsTwice(max: int, load: Loader, s: State, step: Step, k: string)
    returns (steps: seq<Step>, end: State)
    requires Inv(max, load, s) && AtMostOnce(s, k)
    requires step.Store? && Next(max, load, s, step).Some? && k in s.paths && k !in step.kept
    ensures var s1 := Next(max, load, s, step).value;
            && OnceSafeRun(max, load, s1, steps, k) && Exec(max, load, s1, steps) == Some(end)
    ensures end.loads[k] == 2
  {
    var r :| WellFormed(r) && ChartPathKey(r) == k && load(r) == Some(s.paths[k]);
    var s1 := Next(max, load, s, step).value;
    assert step.call !in Busy(s, k);
    OneCallMoves(max, load, s, step);
    BusyMoves(s, s1, step.call, k);
    var c := FreshCall(s1.calls.Keys);
    var lookup, own := Lookup(c, r), Load(c, false);
    var s2 := Next(max, load, s1, lookup).value;
    assert s2.calls[c] == Missed(r);
    TwoSteps(max, load, s1, lookup, own, k);
    steps, end := [lookup, own], Next(max, load, s2, own).value;
  }

  lemma {:induction false} FreshCall(used: set<nat>) returns (c: nat)
    ensures c !in used
    ensures forall u :: u in used ==> u < c
    decreases |used|
  {
    if used == {} {
      c := 0;
    } else {
      var u :| u in used;
      var d := FreshCall(used - {u});
      c := if u < d then d else u + 1;
      assert used == used - {u} + {u};
    }
  }

  /** Every stored path, and every one about to be stored, was downloaded. */
  predicate Accounted(s: State, k: string) {
    && (k in s.paths ==> s.loads[k] >= 1)
    && (forall c :: c in Busy(s, k) && s.calls[c].Loaded? ==> s.loads[k] >= if k in s.paths then 2 else 1)
    && (forall c, d :: c in Busy(s, k) && d in Busy(s, k) && c != d && s.calls[c].Loaded? && s.calls[d].Loaded? ==>
          s.loads[k] >= 2)
  }

  lemma FewerPathsKeepAccounted(s: State, t: State, k: string)
    requires Accounted(s, k) && Busy(t, k) == Busy(s, k)
    requires t.loads[k] == s.loads[k] && (k in t.paths ==> k in s.paths)
    requires forall c :: c in Busy(s, k) ==> t.calls[c] == s.calls[c]
    ensures Accounted(t, k)
  {
  }

  /** A step on another key may only evict the entry of this one. */
  lemma OtherStepTouches(max: int, load: Loader, s: State, step: Step, k: string)
    requires Next(max, load, s, step).Some?
    requires ChartPathKey(Next(max, load, s, step).value.calls[step.call].request) != k
    ensures var t := Next(max, load, s, step).value;
            t.loads[k] == s.loads[k] && (k in t.paths ==> k in s.paths)
  {
  }

  lemma OtherCallLeavesBusy(s: State, t: State, c: nat, k: string)
    requires c in t.calls && t.calls == s.calls[c := t.calls[c]] && ChartPathKey(t.calls[c].request) != k
    requires c in s.calls ==> ChartPathKey(s.calls[c].request) != k
    ensures Busy(t, k) == Busy(s, k) && forall d :: d in Busy(s, k) ==> t.calls[d] == s.calls[d]
  {
    BusyMoves(s, t, c, k);
  }

  lemma OtherStepKeepsAccounted(max: int, load: Loader, s: State, step: Step, k: string)
    requires Accounted(s, k) && Next(max, load, s, step).Some?
    requires ChartPathKey(Next(max, load, s, step).value.calls[step.call].request) != k
    ensures Accounted(Next(max, load, s, step).value, k)
  {
    var t := Next(max, load, s, step).value;
    OtherStepTouches(max, load, s, step, k);
    OneCallMoves(max, load, s, step);
    OtherCallLeavesBusy(s, t, step.call, k);
    FewerPathsKeepAccounted(s, t, k);
  }

  lemma StoreKeepsAccounted(max: int, load: Loader, s: State, step: Step, k: string)
    requires Accounted(s, k) && step.Store? && Next(max, load, s, step).Some?
    requires ChartPathKey(s.calls[step.call].request) == k
    ensures Accounted(Next(max, load, s, step).value, k)
  {
    var t := Next(max, load, s, step).value;
    BusyMoves(s, t, step.call, k);
    assert step.call in Busy(s, k);
    assert forall c :: c in Busy(t, k) ==> c in Busy(s, k) && c != step.call && t.calls[c] == s.calls[c];
  }

  lemma OwnStepKeepsAccounted(max: int, load: Loader, s: State, step: Step, k: string)
    requires Accounted(s, k) && !step.Store? && Next(max, load, s, step).Some?
    requires ChartPathKey(Next(max, load, s, step).value.calls[step.call].request) == k
    ensures Accounted(Next(max, load, s, step).value, k)
  {
    var t := Next(max, load, s, step).value;
    OneCallMoves(max, load, s, step);
    BusyMoves(s, t, step.call, k);
    assert forall c :: c in Busy(t, k) && c != step.call ==> c in Busy(s, k) && t.calls[c] == s.calls[c];
  }

  lemma StepKeepsAccounted(max: int, load: Loader, s: State, step: Step, k: string)
    requires Accounted(s, k) && Next(max, load, s, step).Some?
    ensures Accounted(Next(max, load, s, step).value, k)
  {
    if ChartPathKey(Next(max, load, s, step).value.calls[step.call].request) == k {
      if step.Store? {
        StoreKeepsAccounted(max, load, s, step, k);
      } else {
        OwnStepKeepsAccounted(max, load, s, step, k);
      }
    } else {
      OtherStepKeepsAccounted(max, load, s, step, k);
    }
  }

  lemma {:induction false} AccountedAlways(max: int, load: Loader, steps: seq<Step>, k: string)
    requires Exec(max, load, INIT, steps).Some?
    ensures Accounted(Exec(max, load, INIT, steps).value, k)
    decreases |steps|
  {
    if steps != [] {
      var init, last := steps[..|steps| - 1], steps[|steps| - 1];
      AccountedAlways(max, load, init, k);
      StepKeepsAccounted(max, load, Exec(max, load, INIT, init).value, last, k);
    }
  }

  lemma MissDownloads(max: int, load: Loader, s: State, c: nat, r: Request) returns (t: State)
    requires Inv(max, load, s) && c in s.calls && s.calls[c].Missed? && WellFormed(r) && load(r).Some?
    requires ChartPathKey(s.calls[c].request) == ChartPathKey(r)
    ensures Next(max, load, s, Load(c, false)) == Some(t) && t.loads[ChartPathKey(r)] == s.loads[ChartPathKey(r)] + 1
    ensures Inv(max, load, t) && t.calls == s.calls[c := t.calls[c]]
  {
    assert CallFine(load, s.calls[c]);
    KeyInjective(s.calls[c].request, r);
    t := Next(max, load, s, Load(c, false)).value;
    StepKeepsInv(max, load, s, Load(c, false));
  }

  /** A key that no call is busy with is downloaded by the next call that misses it. */
  lemma NextCallDownloads(max: int, load: Loader, s: State, r: Request) returns (steps: seq<Step>, end: State)
    requires Inv(max, load, s) && WellFormed(r) && load(r).Some?
    requires Busy(s, ChartPathKey(r)) == {} && ChartPathKey(r) !in s.paths
    ensures OnceSafeRun(max, load, s, steps, ChartPathKey(r)) && Exec(max, load, s, steps) == Some(end)
    ensures end.loads[ChartPathKey(r)] == s.loads[ChartPathKey(r)] + 1
  {
    var c := FreshCall(s.calls.Keys);
    var m := Next(max, load, s, Lookup(c, r)).value;
    StepKeepsInv(max, load, s, Lookup(c, r));
    end := MissDownloads(max, load, m, c, r);
    TwoSteps(max, load, s, Lookup(c, r), Load(c, false), ChartPathKey(r));
    steps := [Lookup(c, r), Load(c, false)];
  }

  /** Two calls that both missed a key both download it. */
  lemma BothDownload(max: int, load: Loader, s: State, c: nat, d: nat, r: Request)
    returns (steps: seq<Step>, end: State)
    requires Inv(max, load, s) && WellFormed(r) && load(r).Some? && c != d
    requires c in Busy(s, ChartPathKey(r)) && s.calls[c].Missed? && d in Busy(s, ChartPathKey(r)) && s.calls[d].Missed?
    ensures OnceSafeRun(max, load, s, steps, ChartPathKey(r)) && Exec(max, load, s, steps) == Some(end)
    ensures end.loads[ChartPathKey(r)] == s.loads[ChartPathKey(r)] + 2
  {
    var m := MissDownloads(max, load, s, c, r);
    end := MissDownloads(max, load, m, d, r);
    TwoSteps(max, load, s, Load(c, false), Load(d, false), ChartPathKey(r));
    steps := [Load(c, false), Load(d, false)];
  }

  lemma DownloadsTwice(max: int, load: Loader, s: State, r: Request) returns (steps: seq<Step>, end: State)
    requires Inv(max, load, s) && Accounted(s, ChartPathKey(r)) && !AtMostOnce(s, ChartPathKey(r))
    requires WellFormed(r) && load(r).Some?
    ensures OnceSafeRun(max, load, s, steps, ChartPathKey(r)) && Exec(max, load, s, steps) == Some(end)
    ensures end.loads[ChartPathKey(r)] >= 2
  {
    var k := ChartPathKey(r);
    if s.loads[k] >= 2 {
      steps, end := [], s;
    } else if c :| c in Busy(s, k) && s.calls[c].Missed? {
      if d :| d in Busy(s, k) && d != c && s.calls[d].Missed? {
        steps, end := BothDownload(max, load, s, c, d, r);
      } else {
        assert s.loads[k] == 1 by {
          OnlyMiss(s, c, k);
        }
        end := MissDownloads(max, load, s, c, r);
        OneStep(max, load, s, Load(c, false), k);
        steps := [Load(c, false)];
      }
    } else {
      NoneBusy(s, k);
      steps, end := NextCallDownloads(max, load, s, r);
    }
  }

  lemma OnlyMiss(s: State, c: nat, k: string)
    requires Accounted(s, k) && !AtMostOnce(s, k) && c in Busy(s, k) && s.calls[c].Missed?
    requires forall d :: d in Busy(s, k) && d != c ==> !s.calls[d].Missed?
    ensures s.loads[k] >= 1
  {
    assert s.loads[k] == 0 ==> Busy(s, k) == {c};
  }

  lemma NoneBusy(s: State, k: string)
    requires Accounted(s, k) && !AtMostOnce(s, k) && s.loads[k] <= 1
    requires forall c :: c in Busy(s, k) ==> !s.calls[c].Missed?
    ensures Busy(s, k) == {} && k !in s.paths && s.loads[k] == 1
  {
    assert forall c :: c in Busy(s, k) ==> Busy(s, k) == {c};
  }

  /** "At most once", exactly. In any reachable state, every later run whose steps start no call for the key beside
      another one and evict no entry of it has downloaded the key at most once, if and only if it is absent and was
      never downloaded, or present and downloaded once, or a single call is busy with it. */
  lemma AtMostOnceIff(max: int, load: Loader, prior: seq<Step>, s: State, r: Request)
    requires RequestsWellFormed(prior) && Exec(max, load, INIT, prior) == Some(s)
    requires WellFormed(r) && load(r).Some?
    ensures var k := ChartPathKey(r);
            (AtMostOnce(s, k)
             <==> forall steps, end ::
                    OnceSafeRun(max, load, s, steps, k) && Exec(max, load, s, steps) == Some(end)
                    ==> end.loads[k] <= 1)
  {
    var k := ChartPathKey(r);
    if AtMostOnce(s, k) {
      forall steps, end | OnceSafeRun(max, load, s, steps, k) && Exec(max, load, s, steps) == Some(end)
        ensures end.loads[k] <= 1
      {
        LoadedOnce(max, load, s, steps, k);
      }
    } else {
      InvAlways(max, load, prior);
      AccountedAlways(max, load, prior, k);
      var steps, end := DownloadsTwice(max, load, s, r);
    }
  }

  /** Exactly when a step keeps that: where it holds, a step leads only to runs that download the key of `r` at most
      once (as long as their own steps are safe) if and only if it starts no call for the key beside another one and
      evicts no entry of it. */
  lemma StepKeepsOnceIff(max: int, load: Loader, s: State, step: Step, r: Request)
    requires Inv(max, load, s) && AtMostOnce(s, ChartPathKey(r)) && Next(max, load, s, step).Some?
    requires WellFormed(r) && load(r).Some? && (step.Lookup? ==> WellFormed(step.request))
    ensures var k, s1 := ChartPathKey(r), Next(max, load, s, step).value;
            (OnceSafe(s, step, k)
             <==> forall steps, end ::
                    OnceSafeRun(max, load, s1, steps, k) && Exec(max, load, s1, steps) == Some(end)
                    ==> end.loads[k] <= 1)
  {
    var k, s1 := ChartPathKey(r), Next(max, load, s, step).value;
    if OnceSafe(s, step, k) {
      StepKeepsAtMostOnce(max, load, s, step, k);
      forall steps, end | OnceSafeRun(max, load, s1, steps, k) && Exec(max, load, s1, steps) == Some(end)
        ensures end.loads[k] <= 1
      {
        LoadedOnce(max, load, s1, steps, k);
      }
    } else if step.Lookup? {
      KeyInjective(step.request, r);
      var steps, end := OverlapLoadsTwice(max, load, s, step.call, r);
    } else {
      var steps, end := EvictionLoadsTwice(max, load, s, step, k);
    }
  }
}
