/** Status attributes of a KDexHost, and the JSON merge patches (section 2 of RFC 7396) that two
    independent writers send for them: the deferred write at the end of a reconcile, and the
    status write at the end of a detached Helm worker. */
module HostStatus {
  import opened Wrappers

  type Attributes = map<string, string>

  /** A merge patch of a string map: `None` stands for JSON null, which deletes the key. */
  type Patch = map<string, Option<string>>

  const HELM_PREFIX := "helm.release."
  const HELM_STATUS := "helm.release.status"
  const HELM_GENERATION := "helm.release.generation"
  const HELM_HASH := "helm.release.hash"
  const HELM_ERROR := "helm.release.error"
  const HELM_OWNER := "helm.release.owner"
  const HELM_LAST_ATTEMPT := "helm.release.last-attempt"

  const IN_PROGRESS := "in_progress"
  const COMPLETED := "completed"
  const FAILED := "failed"

  predicate HelmKey(k: string) {
    HELM_PREFIX <= k
  }

  // ---------------------------------------------------------------- merge patches

  /** What MergeFrom sends for `target` when the object was read as `base`. */
  function Diff(base: Attributes, target: Attributes): Patch {
    map k | k in base.Keys + target.Keys && !(k in base && k in target && base[k] == target[k])
      :: if k in target then Some(target[k]) else None
  }

  /** What the API server stores when it receives `p` while holding `m`. */
  function Apply(p: Patch, m: Attributes): Attributes {
    map k | k in m.Keys + p.Keys && (k in p ==> p[k].Some?)
      :: if k in p then p[k].value else m[k]
  }

  lemma DiffRoundTrip(base: Attributes, target: Attributes)
    ensures Apply(Diff(base, target), base) == target
    ensures Diff(base, target) == map[] <==> base == target
  {
    if Diff(base, target) == map[] {
      forall k | k in base.Keys + target.Keys
        ensures k in base && k in target && base[k] == target[k]
      {
        assert k !in Diff(base, target);
      }
    }
  }

  predicate Has(a: Attributes, k: string, v: string) {
    k in a && a[k] == v
  }

  /** The value is stored afterwards exactly when it was not there to begin with, or is still stored. */
  predicate StandsIff(base: Attributes, before: Attributes, after: Attributes, k: string, v: string) {
    Has(after, k, v) <==> (Has(base, k, v) ==> Has(before, k, v))
  }

  predicate GoneIff(base: Attributes, before: Attributes, after: Attributes, k: string) {
    k !in after <==> (k !in base ==> k !in before)
  }

  /** What a patch leaves under one key: it names only what differs from the base. */
  lemma PatchedKey(base: Attributes, target: Attributes, stored: Attributes, k: string)
    ensures var b := Apply(Diff(base, target), stored);
            if k in target then StandsIff(base, stored, b, k, target[k]) else GoneIff(base, stored, b, k)
  {
  }

  /** Where two patches name no common key, the order they arrive in does not matter. */
  lemma DisjointPatchesCommute(p: Patch, q: Patch, m: Attributes)
    requires p.Keys !! q.Keys
    ensures Apply(p, Apply(q, m)) == Apply(q, Apply(p, m))
  {
    var l, r := Apply(p, Apply(q, m)), Apply(q, Apply(p, m));
    forall k
      ensures k in l <==> k in r
      ensures k in l ==> l[k] == r[k]
    {
    }
    assert l.Keys == r.Keys;
  }

  // ---------------------------------------------------------------- the two writers

  /** The attributes a launch records before its worker starts. */
  function MarkInProgress(a: Attributes, hash: string, generation: string, owner: string): (r: Attributes)
    ensures forall k :: !HelmKey(k) ==> (k in r <==> k in a) && (k in a ==> r[k] == a[k])
  {
    a[HELM_STATUS := IN_PROGRESS][HELM_HASH := hash][HELM_GENERATION := generation][HELM_OWNER := owner]
    - {HELM_ERROR, HELM_LAST_ATTEMPT}
  }

  /** The attributes a worker records when it finishes, with the error that stopped it if any. */
  function MarkOutcome(a: Attributes, err: Option<string>, hash: string, owner: string, now: string): (r: Attributes)
    ensures forall k :: !HelmKey(k) ==> (k in r <==> k in a) && (k in a ==> r[k] == a[k])
  {
    var b :=
      match err
      case Some(message) => a[HELM_STATUS := FAILED][HELM_ERROR := message][HELM_LAST_ATTEMPT := now]
      case None => a[HELM_STATUS := COMPLETED] - {HELM_ERROR, HELM_LAST_ATTEMPT};
    b[HELM_HASH := hash][HELM_OWNER := owner]
  }

  /** A launch, key by key. */
  lemma LaunchInWords(a: Attributes, hash: string, generation: string, owner: string)
    ensures var b := MarkInProgress(a, hash, generation, owner);
            && Has(b, "helm.release.status", "in_progress") && Has(b, "helm.release.hash", hash)
            && Has(b, "helm.release.generation", generation) && Has(b, "helm.release.owner", owner)
            && "helm.release.error" !in b && "helm.release.last-attempt" !in b
  {
    assert |HELM_STATUS| == 19 && |HELM_HASH| == 17 && |HELM_ERROR| == 18;
    assert |HELM_OWNER| == 18 && |HELM_LAST_ATTEMPT| == 25 && |HELM_GENERATION| == 23;
    assert HELM_ERROR[13] == 'e' && HELM_OWNER[13] == 'o';
  }

  /** The end of a worker, key by key: a failure is recorded with its message and its time, a success clears both. */
  lemma OutcomeInWords(a: Attributes, err: Option<string>, hash: string, owner: string, now: string)
    ensures var b := MarkOutcome(a, err, hash, owner, now);
            && Has(b, "helm.release.hash", hash) && Has(b, "helm.release.owner", owner)
            && (match err
                case Some(message) =>
                  && Has(b, "helm.release.status", "failed") && Has(b, "helm.release.error", message)
                  && Has(b, "helm.release.last-attempt", now)
                case None =>
                  && Has(b, "helm.release.status", "completed")
                  && "helm.release.error" !in b && "helm.release.last-attempt" !in b)
  {
    assert |HELM_STATUS| == 19 && |HELM_HASH| == 17 && |HELM_ERROR| == 18;
    assert |HELM_OWNER| == 18 && |HELM_LAST_ATTEMPT| == 25;
    assert HELM_ERROR[13] == 'e' && HELM_OWNER[13] == 'o';
  }

  /** `mem` with the Helm attributes among the `visited` fetched ones copied over it. */
  function OverlayFrom(mem: Attributes, latest: Attributes, visited: set<string>): Attributes {
    mem + map k | k in latest && k in visited && HelmKey(k) :: latest[k]
  }

  /** The in-memory attributes after the deferred block copied the fetched Helm attributes over them. */
  function Overlay(mem: Attributes, latest: Attributes): Attributes {
    OverlayFrom(mem, latest, latest.Keys)
  }

  lemma OverlayVisit(mem: Attributes, latest: Attributes, visited: set<string>, k: string)
    requires k in latest
    ensures OverlayFrom(mem, latest, visited + {k})
         == if HelmKey(k) then OverlayFrom(mem, latest, visited)[k := latest[k]] else OverlayFrom(mem, latest, visited)
  {
  }

  /** The loop of the deferred block: it visits the fetched attributes in some order. */
  method OverlayHelmAttributes(mem: Attributes, latest: Attributes) returns (merged: Attributes)
    ensures merged == Overlay(mem, latest)
  {
    merged := mem;
    var rest := latest.Keys;
    NothingVisited(mem, latest);
    while rest != {}
      invariant rest <= latest.Keys
      invariant merged == OverlayFrom(mem, latest, latest.Keys - rest)
      decreases |rest|
    {
      var k :| k in rest;
      OverlayVisit(mem, latest, latest.Keys - rest, k);
      assert latest.Keys - rest + {k} == latest.Keys - (rest - {k});
      if HelmKey(k) {
        merged := merged[k := latest[k]];
      }
      rest := rest - {k};
    }
    assert latest.Keys - rest == latest.Keys;
  }

  lemma NothingVisited(mem: Attributes, latest: Attributes)
    ensures OverlayFrom(mem, latest, latest.Keys - latest.Keys) == mem
  {
  }

  lemma OverlayKey(mem: Attributes, latest: Attributes, k: string)
    requires HelmKey(k)
    ensures k in latest ==> Has(Overlay(mem, latest), k, latest[k])
    ensures k in mem && k !in latest ==> Has(Overlay(mem, latest), k, mem[k])
  {
  }

  function DeferredPatch(mem: Attributes, latest: Attributes): Patch {
    Diff(latest, Overlay(mem, latest))
  }

  function WorkerPatch(base: Attributes, err: Option<string>, hash: string, owner: string, now: string): Patch {
    Diff(base, MarkOutcome(base, err, hash, owner, now))
  }

  /** The guard of "no lost update": every Helm attribute the reconcile still holds in memory is
      present in the copy its deferred block fetched. */
  predicate HelmAttributesFetched(mem: Attributes, latest: Attributes) {
    forall k :: k in mem && HelmKey(k) ==> k in latest
  }

  /** Agreement of two attribute maps on the Helm attributes, or on all the others. */
  ghost predicate SameHelm(a: Attributes, b: Attributes) {
    forall k :: HelmKey(k) ==> (k in a <==> k in b) && (k in a ==> a[k] == b[k])
  }

  ghost predicate SameOthers(a: Attributes, b: Attributes) {
    forall k :: !HelmKey(k) ==> (k in a <==> k in b) && (k in a ==> a[k] == b[k])
  }

  lemma WorkerPatchIsHelmOnly(base: Attributes, err: Option<string>, hash: string, owner: string, now: string)
    ensures forall k :: k in WorkerPatch(base, err, hash, owner, now) ==> HelmKey(k)
  {
  }

  /** The deferred write leaves the Helm attributes of every stored copy alone exactly when each
      one it still holds in memory was present in its own fetch. Otherwise an attribute the worker
      deleted (a stale error, say) comes back. */
  lemma DeferredKeepsHelmIff(mem: Attributes, latest: Attributes)
    ensures (forall s: Attributes :: SameHelm(Apply(DeferredPatch(mem, latest), s), s))
        <==> HelmAttributesFetched(mem, latest)
  {
    var p := DeferredPatch(mem, latest);
    if HelmAttributesFetched(mem, latest) {
      assert forall k :: k in p ==> !HelmKey(k);
    } else {
      var k :| k in mem && HelmKey(k) && k !in latest;
      var none: Attributes := map[];
      assert k in p && p[k].Some?;
      assert k in Apply(p, none) && k !in none;
      assert !SameHelm(Apply(p, none), none);
    }
  }

  /** No lost update. Whatever the store holds, the deferred write and the worker's write commute;
      the worker's values and deletions of Helm attributes stand, and so do the reconcile's values
      and deletions of the others. */
  lemma NoLostHelmUpdates(
    mem: Attributes, latest: Attributes, base: Attributes, stored: Attributes,
    err: Option<string>, hash: string, owner: string, now: string)
    requires HelmAttributesFetched(mem, latest)
    ensures var p, q := DeferredPatch(mem, latest), WorkerPatch(base, err, hash, owner, now);
            var both := Apply(p, Apply(q, stored));
            && both == Apply(q, Apply(p, stored))
            && (SameHelm(stored, base) ==> SameHelm(both, MarkOutcome(base, err, hash, owner, now)))
            && (SameOthers(stored, latest) ==> SameOthers(both, mem))
  {
    var p, q := DeferredPatch(mem, latest), WorkerPatch(base, err, hash, owner, now);
    WorkerPatchIsHelmOnly(base, err, hash, owner, now);
    assert forall k :: k in p ==> !HelmKey(k);
    DisjointPatchesCommute(p, q, stored);
    var target := MarkOutcome(base, err, hash, owner, now);
    DiffRoundTrip(base, target);
    DiffRoundTrip(latest, Overlay(mem, latest));
    var both := Apply(p, Apply(q, stored));
    if SameHelm(stored, base) {
      forall k | HelmKey(k)
        ensures (k in both <==> k in target) && (k in both ==> both[k] == target[k])
      {
        assert k in both <==> k in Apply(q, base);
      }
    }
    if SameOthers(stored, latest) {
      forall k | !HelmKey(k)
        ensures (k in both <==> k in mem) && (k in both ==> both[k] == mem[k])
      {
        assert k in both <==> k in Apply(p, latest);
      }
    }
  }

  /** The failing family is real: the worker's success deletes the error, and the deferred write of a
      reconcile that had read the error brings it back, next to the status "completed". */
  lemma StaleErrorComesBack(mem: Attributes, hash: string, owner: string)
    requires HELM_ERROR in mem
    ensures var done := MarkOutcome(mem, None, hash, owner, "");
            var after := Apply(DeferredPatch(mem, done), done);
            && HELM_ERROR !in done && done[HELM_STATUS] == COMPLETED
            && HELM_ERROR in after && after[HELM_ERROR] == mem[HELM_ERROR] && after[HELM_STATUS] == COMPLETED
  {
    var done := MarkOutcome(mem, None, hash, owner, "");
    DiffRoundTrip(done, Overlay(mem, done));
    OutcomeInWords(mem, None, hash, owner, "");
    OverlayKey(mem, done, HELM_ERROR);
    OverlayKey(mem, done, HELM_STATUS);
  }
}
