# Verified model of the KDex host controller

This project models the parts of the KDex Kubernetes operator that hold a protocol, an ordering or an
invariant, and proves what they promise. It has four parts.

1. **The asynchronous Helm protocol and host teardown.** A reconcile of a host hashes what it would send to Helm,
   compares it with status attributes, and may launch a detached worker. `HelmProtocol` is a transition system over
   all hosts: one program counter per reconcile and per worker, the active-operation map, the render channel, the
   release store with its owner labels, and the API server. `HelmSafety`, `HelmUniqueness`, `HelmTeardown` and
   `HelmRender` prove what every run keeps; `HelmConvergence`, `HelmSuccess` and `HelmRename` when the releases of a host
   are what its spec says and stay so, `HelmUpToDate` what the recorded status says about them; `HelmDecision` what a
   reconcile decides, `HelmFailure` what becomes of a failed call, `HelmDeletion` what protects a teardown; `HelmSteps` and
   `HelmRuns` hold single steps and the runs that existence proofs need. `HelmOperations` and `HelmPass` are the same
   code on mutable objects: the map and the channel, one Helm pass, the companion teardown. `HostDeletion` is the
   deletion ladder, `HostStatus` the two writers of the status attributes, `HelmClients` the client cache.
2. **Translations.** `Translations` orders, dedupes and filters sources; its specification is the last-write-wins
   catalog that host-manager builds. `TranslationResolution` materialises the ordered sources as copies and prunes.
3. **Extensions.** `Extensions` selects, and both reconcilers that use the selection are proved to agree.
4. **Smaller state.** `ChartCache` (the shared path cache and its interleavings), `AppStatus` (status comparison and
   the guarded write), `EnvVars`, `Registry`.

`Ordering` and `Wrappers` hold string order, sorting and `Option`. `dafny verify dfyconfig.toml` checks everything.

## Environment assumptions

- The work queue never runs two reconciles of one host at once; one controller instance runs. `Restart` loses all its memory.
- API reads are current. A status patch is a JSON merge patch (section 2 of RFC 7396), applied to the server's current copy.
- A nil `Uninstall` means the release is gone; a nil `InstallOrUpgrade` means it is present with its labels merged
  in. A call that fails may or may not have taken effect. `ListReleases` answers exactly or fails.
- A status patch sent under a cancelled context is refused; one already on its way may still land. Helm calls do not look at the
  worker's context.
- The host carries no finalizer but this operator's, so removing it removes the host.
- A Helm client acts on its host's namespace. `HelmClients` shows when the client cache keeps that promise.
- Hashes of rendered inputs are an abstract function; where a result needs it to be injective, it says so.
- Resolving references, translations and extensions leaves the `helm.release.*` attributes in memory alone. This is
  true of names that do not start with "helm.release.": a translation named "helm.release.x" makes the operator write
  the attribute "helm.release.x.translation.generation", and an extension or a secret of such a name does the same.

## The steps of the protocol

Every lock section, API call and Helm call is one atomic step, so a run is any interleaving of them. Paths are under
`internal/controller/`.

- `QueueNext`, a worker up to its re-read: kdexhost_controller_helm.go:391-437
- `HelmNext`, its Helm calls: kdexhost_controller_helm.go:439-481
- `FinishNext`, its status write and its exits: kdexhost_controller_helm.go:486-540 and 415
- `DecideNext`, deciding on a launch: kdexhost_controller_helm.go:227-337
- `LaunchNext`, claiming the map with its unlocked cancel, and the go statement: kdexhost_controller_helm.go:164-185 and 339-347
- `TeardownNext`, the teardown of a host: kdexhost_controller.go:246-310, kdexhost_controller_helm.go:203-215 and 710-746
- `FrameNext`, finalizer and deferred write: kdexhost_controller.go:110-170 and 187-194

## Where the code does not do what it says

Each is a theorem: the failing input, and the exact condition under which the promise holds.

- `chart_cache.go:48` promises one load per key on a miss. In a reachable state, every later run that starts no call for
  the key beside another one and evicts no entry of it has downloaded the key at most once if and only if the key is
  absent and was never downloaded, or present and downloaded once, or a single call is busy with it
  (`ChartCache.AtMostOnceIff`). From there, exactly the steps that do neither keep it so (`StepKeepsOnceIff`); each
  violation has its run (`OverlapLoadsTwice`, `EvictionLoadsTwice`).
- A successful Helm pass leaves the host release installed unless that release itself carries the host's companion
  label and is not declared: labels survive an upgrade, so the prune of the same pass removes it (`HelmPass.PassConverges`).
- The deferred status write resurrects a `helm.release.*` attribute that the reconcile still holds and its worker has
  deleted. `HelmUpToDate.StaleErrorIsReachable` builds the run, from a fresh controller, for every host that is about
  to be launched: the failure patch of a worker is already on its way when an edit supersedes it, and its error ends
  beside the status "completed".
  `HostStatus.DeferredKeepsHelmIff` and `HelmUpToDate.DeferredWriteKeepsHelmIff` are the conditions.
- A worker's status patch names only what differs from the copy it read. When a launch comes between the read and the
  write, the write completes the *next* launch's hash, and if the controller restarts then, the host stays "up to
  date" for inputs that were never rendered (`HelmUpToDate.UpToDateCanBeWrong`). `SuccessIsRecordedIff` says exactly
  when a success is recorded under the worker's own hash.
- The comment at kdexhost_controller_helm.go:473-476 says that a rename never leaves the host with neither name. Cancelling
  a worker does not stop its Helm calls: a superseded worker past its slot lists and prunes what its successor has just
  installed. `HelmRename.RenameLosesBoth` builds the run, from every fresh controller and for every two specs of different
  hashes, without a failing call or a restart: it ends up to date, without a worker, and with only the companions that both
  specs declare. Whatever else runs, a success is right when it is recorded if and only if no other worker of the host had
  stale work ahead when the pass began (`HelmSuccess.PassIsRightIff`); and what is right stays right if and only if no worker
  has an install of the host from another spec ahead (`HelmConvergence.HostStaysCurrentIff`), or one of an undeclared
  companion, or a list or prune that takes a declared one (`CompanionsStayDeclaredIff`).
- The comment at kdexhost_controller_helm.go:198-202 relies on the re-check after the slot. It covers a queued worker
  (`HelmTeardown.LateReReadIsHarmless`), not one past it: a teardown is safe if and only if no worker of the host
  still has an install ahead when the uninstalls start (`TeardownSafeIff`).
- The active map identifies workers by hash. `HelmUniqueness.ClaimKeepsUniqueIff`: one live worker per host survives a
  claim exactly when no unfinished worker was launched for the claimed hash.
- A worker records the hash it was launched for and renders what it re-read. It renders inputs of its launch hash in
  every run that leaves them alone if and only if they had that hash to begin with (`HelmRender.RendersLaunchedIff`).
  An edit that is reverted while the worker runs leaves the release rendered from the edit, and the host "up to date"
  (`HelmRender.EditAndBackGoesUnnoticed`, for every queued worker that is not cancelled and every spec of another hash).
- `name-namespace` does not separate hosts: two hosts whose names and namespaces overlap, as "a-b" in "c" and "a" in
  "b-c" do, share a Helm client when their secrets are equal (`HelmClients.ForeignClient`). `KeysCollideIff` says which
  hosts overlap, and `OwnClientIff` after which calls a host gets its own client.
- A copy's name joins the host's and the source's with a hyphen, so hosts of overlapping names claim one copy: host "a-b"
  with translation "c", and host "a" with "b-c" (`TranslationResolution.CopiesCollideIff`; `WriteFailsIff` says that the
  second one's pass then fails).
- After a clean resolution a wanted copy that was already terminating is not live (`TranslationResolution.ResolutionExact`).
- The status guard settles an app unless its validation fails: every failing pass counts an attempt in the status, so
  it is written every time (`AppStatus.AtMostOneWrite`).
- A chart reference without scheme that contains a double slash loses its host (`Registry.SchemeIsIrrelevantIff`).

## Model

| member | source | states |
|---|---|---|
| HelmSafety.ZombieDetectionSound | internal/controller/kdexhost_controller_helm.go:164-225 | In every reachable state an active-map entry stands for a started, unfinished worker of that host and hash, or for the goroutine its reconcile is about to start; "still working" is answered only for a worker that works |
| HelmSafety.SlotsAlwaysConserved | internal/controller/kdexhost_controller_helm.go:357-379 | Channel tokens always equal workers with an unreleased slot; renders never exceed a positive bound; a prune holds no slot; no workers, no tokens; a release never blocks |
| HelmSafety.WorkersNeverStuck | internal/controller/kdexhost_controller_helm.go:381-484 | A started worker has a next step unless it is uncancelled and queued while every slot is taken |
| HelmSafety.StepKeepsSafe | internal/controller/kdexhost_controller_helm.go:381-484 | Any step of any reconcile, worker or user, and a restart, keep the invariant behind these results |
| HelmUniqueness.OneWorkerPerHost | internal/controller/kdexhost_controller_helm.go:164-215 | Where no hash recurs under a running worker, a host has at most one live uncancelled worker and, outside the replace window, it owns the entry; clearing never removes another worker's entry |
| HelmUniqueness.ClaimKeepsUniqueIff | internal/controller/kdexhost_controller_helm.go:164-195 | A claim of the map keeps that in all later runs if and only if no unfinished worker of the host was launched for the claimed hash |
| HelmUniqueness.CancelledWorkerMayClear | internal/controller/kdexhost_controller_helm.go:409-437 | From anywhere, a cancelled worker can run to its end, clearing the entry of its own host and hash and touching no other worker |
| HelmTeardown.LateReReadIsHarmless | internal/controller/kdexhost_controller_helm.go:417-437 | A worker that has not re-read its host when deletion is requested makes no Helm call and builds no client in any later run |
| HelmTeardown.TeardownSafeIff | internal/controller/kdexhost_controller.go:246-310 | From the start of the uninstalls, every run that ends with the host gone leaves neither its release nor one carrying its label, if and only if no worker of the host has an install ahead |
| HelmTeardown.PassSucceeds | internal/controller/kdexhost_controller.go:246-310 | The protocol's steps of a teardown in which nothing fails leave the store that HostDeletion.Host.DeletionPass leaves |
| HelmTeardown.LateInstallSurvives | internal/controller/kdexhost_controller_helm.go:450-464 | Otherwise there is a run in which the finalizer goes and a release of the host is left |
| HelmRender.RendersLaunchedIff | internal/controller/kdexhost_controller_helm.go:409-464 | A queued worker renders inputs of its launch hash in every run that leaves the host's inputs alone, if and only if they have that hash |
| HelmRender.UntouchedInputsAreRendered | internal/controller/kdexhost_controller_helm.go:425-464 | The same from any point on, for a worker whose read or still unread spec has the launch hash |
| HelmRender.EditAndBackGoesUnnoticed | internal/controller/kdexhost_controller_helm.go:409-531 | For any queued worker that is not cancelled and any spec of another hash there is a run after which the release is rendered from that spec, the old spec is back, and the host is found up to date for it |
| HelmRuns.MayReachClient | internal/controller/kdexhost_controller_helm.go:391-445 | From any reachable state a queued worker can reach its client with the spec the host has then: a slot is free, or a holder can give one back touching nothing else |
| HelmRuns.RunsThrough | internal/controller/kdexhost_controller_helm.go:439-483 | The protocol's steps of a pass in which nothing fails leave the store that HelmPass.RunPass leaves |
| HelmConvergence.HostStaysCurrentIff | internal/controller/kdexhost_controller_helm.go:409-484 | Among all steps of all hosts: a host release rendered from the current inputs stays so in every later run that leaves the inputs alone, if and only if no worker of the host has an install of it from another spec ahead |
| HelmConvergence.CompanionsStayDeclaredIff | internal/controller/kdexhost_controller_helm.go:409-484 | Likewise the releases labelled for the host stay exactly the declared companions, if and only if none of its workers has an undeclared companion's install ahead, or a list or prune that takes a declared one |
| HelmSuccess.PassIsRightIff | internal/controller/kdexhost_controller_helm.go:439-484 | Whenever a worker past its re-read is about to record a success, the host release is rendered from the current inputs and the labelled companions are the declared ones, if and only if no other worker of the host has such work ahead |
| HelmRename.RenameLosesBoth | internal/controller/kdexhost_controller_helm.go:466-483 | From every fresh controller and for any two specs of different hashes, a run without failures or restarts ends without workers and up to date, with none of the companions that only one of the specs declares |
| HelmUpToDate.SuccessIsRecordedIff | internal/controller/kdexhost_controller_helm.go:486-540 | A worker's success stands under its own hash exactly when status and hash are still stored wherever its patch does not name them |
| HelmUpToDate.UpToDateCanBeWrong | internal/controller/kdexhost_controller_helm.go:227-540 | From every fresh controller about to launch a host, and every spec of another hash, a run ends without workers, up to date for that spec, with a release rendered from the earlier one |
| HelmUpToDate.DeferredWriteKeepsHelmIff | internal/controller/kdexhost_controller.go:110-167 | In any state the deferred write leaves the stored Helm attributes alone exactly when those it holds but did not fetch are stored with the same values |
| HelmUpToDate.StaleErrorIsReachable | internal/controller/kdexhost_controller.go:110-167 | From every such controller a run ends up to date with the error beside "completed" that a worker's patch brought after it was superseded |
| HelmDecision.DecisionIff | internal/controller/kdexhost_controller_helm.go:227-296 | Whatever runs between its steps, a reconcile decides that there is nothing to do exactly when the fetched status is in progress with the hash active here, or completed under that hash, or failed under it within the backoff; otherwise it goes on to launch |
| HelmDecision.FailureDecidesNothing | internal/controller/kdexhost_controller_helm.go:230-247 | A failed read or hash ends in the deferred block, and nothing changes |
| HelmDecision.LaunchIsRecordedIff | internal/controller/kdexhost_controller_helm.go:301-337 | A context is created only with the patch; each attribute of the launch stands exactly when the fetched copy lacked it or it is still stored; a failed patch launches nothing |
| HelmDecision.ClaimIff | internal/controller/kdexhost_controller_helm.go:164-185 | An active operation of the same hash is left alone and the new context discarded; a free map is claimed; one of another hash is cancelled and replaced, with others in between |
| HelmDecision.SettledIsLeftAlone | internal/controller/kdexhost_controller_helm.go:272-276 | Without a worker or a running reconcile, a host completed under the hash of its current inputs gets no worker in any later run that leaves them alone, and its Helm attributes stay |
| HelmDecision.SettledIff | internal/controller/kdexhost_controller_helm.go:227-347 | Of such live hosts, exactly those completed under their current hash get no worker in any such run |
| HelmFailure.OutcomeIsRecordedIff | internal/controller/kdexhost_controller_helm.go:486-540 | Each attribute of a failure ("failed", the message, the time) or a success ("completed", neither) stands exactly when the copy read lacked it or it is still stored |
| HelmFailure.FailureIsReported | internal/controller/kdexhost_controller_helm.go:439-483 | Whatever runs after a call of a worker's failed, it writes no other outcome than a failure with that message |
| HelmFailure.NoFactoryIsReported | internal/controller/kdexhost_controller_helm.go:398-403 | Without a client factory the worker reports just that |
| HelmFailure.LeavesQuietly | internal/controller/kdexhost_controller_helm.go:391-437 | A worker whose host is gone, unreadable or terminating, or that is cancelled while it waits, makes no call and writes no status in any later run |
| HelmFailure.FailureIsRetried | internal/controller/kdexhost_controller_helm.go:278-299 | A failure written with nothing in between is up to date for no hash, and after its worker ends a reconcile may launch a new one |
| HelmDeletion.LaunchIsGuarded | internal/controller/kdexhost_controller.go:187-194 | In every run a worker's context is created only while its host is on the server with the finalizer set |
| HelmDeletion.UninstallsAfterCancel | internal/controller/kdexhost_controller_helm.go:198-215 | Where no hash recurs, from the first uninstall of a host's teardown to its end it has no active operation, and all its unfinished workers are cancelled |
| HelmDeletion.DeletionSucceeds | internal/controller/kdexhost_controller.go:246-310 | From anywhere, one reconcile of a terminating host in which nothing fails cancels its operation and leaves no host object, client, entry, release or companion |
| HelmOperations.OperationTable.TrySet | internal/controller/kdexhost_controller_helm.go:164-185 | The claim fails exactly for an active equal hash; otherwise the entry is set and a superseded context is cancelled outside the mutex, whatever happens in between |
| HelmOperations.OperationTable.CancelHelmOperation | internal/controller/kdexhost_controller_helm.go:203-215 | Forgets the entry and cancels its context, or does nothing |
| HelmOperations.RenderSlots.Acquire | internal/controller/kdexhost_controller_helm.go:357-379 | Adds one token and one unreleased slot, keeping tokens equal to unreleased slots and within the bound; fails only when cancelled |
| HelmOperations.RenderSlots.Release | internal/controller/kdexhost_controller_helm.go:370-375 | Drains one token the first time and none later |
| HelmPass.RunPass | internal/controller/kdexhost_controller_helm.go:450-483 | Of a pass on its own: it succeeds exactly when values can be built and read and no call fails, and then the store has converged; installs under the slot in declared order, a repository recorded by the call before its install, then the prune without it, each stopping at its first failure; at every intermediate state either all previously owned companions or all declared ones exist and others are untouched; no declared companion is uninstalled |
| HelmPass.InstallAll | internal/controller/kdexhost_controller_helm.go:450-464 | The calls follow the plan of host release, then each companion's repository and release: all of it unless one fails, and nothing after that one |
| HelmPass.PlanInWords | internal/controller/kdexhost_controller_helm.go:450-464 | Such calls are the host release first, then each companion at its place in declared order, its install right after its repository was recorded; all of them after a success |
| HelmPass.ReconcileCompanionChart | internal/controller/kdexhost_controller_helm.go:646-669 | Success means the companion is present and labelled; a failure may or may not have installed it |
| HelmPass.PruneCompanions | internal/controller/kdexhost_controller_helm.go:675-702 | A list call, then uninstalls of owned and undeclared companions only; nothing after a failed one; success exactly when none failed |
| HelmPass.PassConverges | internal/controller/kdexhost_controller_helm.go:450-483 | From any store the labelled releases become exactly the declared companions and other releases are untouched; the host release is present unless it carries its own label undeclared |
| HelmPass.RepeatIsIdentityIff | internal/controller/kdexhost_controller_helm.go:450-483 | Repeating a successful pass changes nothing, exactly under that condition |
| HelmPass.CollectTargets | internal/controller/kdexhost_controller_helm.go:716-730 | The targets are the owned companions, then the declared ones not yet among them, each once |
| HelmPass.UninstallCompanions | internal/controller/kdexhost_controller_helm.go:710-746 | Every owned or declared companion is attempted whatever fails; nil exactly when the listing and all uninstalls succeeded, and then none is left and nothing else is touched |
| HostDeletion.Host.DeletionPass | internal/controller/kdexhost_controller.go:195-312 | It waits exactly when something is left and no error was met, marking the first level that is left; the finalizer goes exactly when nothing was left and no API call, build or client call failed, and then no release of the host is left; past the ladder the host and all companions are attempted whatever fails |
| HostDeletion.Host.UninstallEverything | internal/controller/kdexhost_controller.go:267-283 | The host release and every owned or declared companion are attempted; nil exactly when no call failed |
| HostDeletion.DeleteAll | internal/controller/kdexhost_controller.go:217-244 | Succeeds exactly when every object that is not terminating may be deleted; only such objects are marked, whatever fails |
| HostDeletion.PassDecreases | internal/controller/kdexhost_controller.go:195-244 | A waiting pass whose deletes take effect leaves fewer internal resources |
| HostDeletion.DeletionTerminates | internal/controller/kdexhost_controller.go:195-312 | Whatever passes fail in between, a host with n internal resources loses its finalizer in its (n + 1)-th pass without a failure at the latest |
| HostStatus.DiffRoundTrip | internal/controller/kdexhost_controller.go:124-159 | Applying a merge patch to its base gives its target; it is empty exactly when they are equal |
| HostStatus.OverlayHelmAttributes | internal/controller/kdexhost_controller.go:126-136 | The loop copies exactly the fetched helm.release.* attributes over the reconcile's |
| HostStatus.NoLostHelmUpdates | internal/controller/kdexhost_controller.go:110-167 | When every in-memory helm.release.* key was fetched, the deferred and the worker's patches commute on any store; the worker's Helm values and deletions and the reconcile's others stand |
| HostStatus.DeferredKeepsHelmIff | internal/controller/kdexhost_controller.go:126-136 | The deferred patch leaves the Helm attributes of every stored copy alone if and only if every one it holds was fetched |
| HostStatus.StaleErrorComesBack | internal/controller/kdexhost_controller.go:126-159 | Otherwise the error a worker's success deleted is back beside the status "completed" |
| HelmClients.HelmClientCache.GetOrCreate | internal/controller/kdexhost_controller.go:856-883 | Returns the client cached from secrets of the same hash, whatever the factory would do, or builds one; it fails exactly when the build is needed and fails, and changes nothing then |
| HelmClients.KeysCollideIff | internal/controller/kdexhost_controller.go:864-864 | Two hosts share a key exactly when they are one, or one namespace ends in "-" and the other's and the names make up for it |
| HelmClients.OwnClientIff | internal/controller/kdexhost_controller.go:843-883 | After any calls, a call gets a client of its own namespace and secrets exactly when the latest streak of calls for its key with its secrets, if there is one, began in its namespace |
| HelmClients.OwnClientWithoutOverlap | internal/controller/kdexhost_controller.go:856-883 | So it always does when no earlier call's host overlaps with its own |
| HelmClients.ForeignClient | internal/controller/kdexhost_controller.go:864-871 | Of any two overlapping hosts with the same secrets, the second to ask is handed the first one's client |
| Translations.OrderTranslationSources | internal/controller/kdexhost_translations.go:42-91 | For some name-sorted self-attached order, the last candidate of every name in precedence order, and the sorted, joined texts of the conflicts |
| Translations.CollisionIsCanonical | internal/controller/kdexhost_translations.go:69-90 | The collision text is empty exactly when there is no conflict, and does not depend on the order in which conflicts are met |
| Translations.CollisionNamesBoth | internal/controller/kdexhost_translations.go:77-90 | The collision names the loser and the winner of every conflict and says which is used |
| Translations.PickWinners | internal/controller/kdexhost_translations.go:65-81 | The backwards walk keeps a candidate exactly when no later one has its name |
| Translations.OrderedAreWinners | internal/controller/kdexhost_translations.go:65-88 | The result holds every name once: exactly the candidate of highest precedence |
| Translations.NoConflictIff | internal/controller/kdexhost_translations.go:77-90 | The collision is empty exactly when candidates of one name are one source |
| Translations.ConflictsExact | internal/controller/kdexhost_translations.go:77-80 | A conflict is reported exactly for each source that shares its name with a winner of another key |
| Translations.DedupePreservesCatalog | internal/controller/kdexhost_translations.go:32-91 | Without a collision the returned sources make the catalog of default, all self-attached by name, all declared, duplicates included |
| Translations.DeclaredWins | internal/controller/kdexhost_translations.go:32-36 | Without a collision among the declared sources, a host-declared value beats anything self-attached or default, whatever names of theirs collide |
| Translations.WithoutConsentKeys | internal/controller/kdexhost_translations.go:185-206 | The spec without consent.* keys and exactly the removed lang/key pairs, sorted |
| Translations.FilterConserves | internal/controller/kdexhost_translations.go:199-204 | The filtered catalog is the original one without its consent entries |
| Translations.AdmitSelfAttached | internal/controller/kdexhost_controller_util.go:253-271 | Self-attached sources that the host does not declare lose their consent keys; declared ones keep theirs; those that lose them keep identity, languages and every other value |
| Translations.ConsentProvenance | internal/controller/kdexhost_controller_util.go:253-273 | Every consent value of the resolved catalog comes from the default or a host-declared source, name collisions included |
| Translations.OthersUnfiltered | internal/controller/kdexhost_controller_util.go:253-273 | Every value of the resolved catalog outside consent is the one the unfiltered sources would give, name collisions included |
| Translations.ResolvedOutsideConsent | internal/controller/kdexhost_controller_util.go:253-273 | The same for the order the filtered sources are sorted into, which is one of the attached ones by name |
| Translations.KeyIdentifies | internal/controller/kdexhost_translations.go:28-30 | Among names without a slash, equal keys are equal kind, namespace and name |
| TranslationResolution.Resolver.Resolve | internal/controller/kdexhost_controller_util.go:275-293 | Writes a copy per ordered source, then prunes; a failed write keeps what was written and recorded so far and prunes nothing; failed deletes leave some copies, and their attributes still go; a failed list leaves all; a copy is named after the host, a hyphen and the source |
| TranslationResolution.Resolver.DeleteCopies | internal/controller/kdexhost_translations.go:129-139 | Deletes the live copies the host controls outside keep; a failed delete leaves its copy |
| TranslationResolution.Resolver.DropAttributes | internal/controller/kdexhost_translations.go:141-145 | Drops the generation attributes whose copy is not kept |
| TranslationResolution.WriteFailsIff | internal/controller/kdexhost_controller_util.go:53-74 | The writes can succeed exactly when no other owner controls a copy of a source |
| TranslationResolution.CopiesCollideIff | internal/controller/kdexhost_controller_util.go:44 | Copies of two hosts have one name exactly for the same host and source or overlapping names; never for two hosts with a translation of one name |
| TranslationResolution.ResolutionExact | internal/controller/kdexhost_controller_util.go:275-291 | After a clean pass the host's live copies are exactly those of the ordered sources, terminating ones aside; what it does not control is untouched |
| TranslationResolution.ResolvedOrderExact | internal/controller/kdexhost_controller_util.go:273-293 | Order and resolution together: the live copies are those of all attached names, terminating ones aside, each from the last candidate of its name |
| TranslationResolution.PartialPruneSpares | internal/controller/kdexhost_translations.go:129-139 | Whatever deletes fail, written copies and copies of others stay |
| TranslationResolution.ResolutionIdempotent | internal/controller/kdexhost_controller_util.go:275-293 | A second clean pass rewrites what is there and deletes nothing |
| TranslationResolution.AttributesExact | internal/controller/kdexhost_translations.go:141-145 | The translation generation attributes are exactly those of the ordered sources, with their generations |
| Extensions.SelectExtensions | internal/controller/kdexhost_extensions.go:68-99 | Applied then overflow are the valid accepted candidates sorted by weight and name and cut at 32; no selector selects nothing; an unparseable one is the error; in ascending weight and then name, exactly what the host takes |
| Ordering.StringLeIff | internal/controller/kdexhost_extensions.go:89-94 | Names compare by their first difference, a prefix coming first |
| Extensions.RankTheorem | internal/controller/kdexhost_extensions.go:89-98 | With unique names, an extension that names the host, is not being deleted, matches and compiles is applied if and only if fewer than 32 such ones have a smaller weight, or the same weight and a name that comes before; otherwise it overflows |
| Extensions.SelectionPartitions | internal/controller/kdexhost_extensions.go:77-99 | Applied, overflow and invalid partition the accepted candidates, with multiplicity |
| Extensions.SelectionIgnoresOrder | internal/controller/kdexhost_extensions.go:68-99 | The selection does not depend on the order of the candidates |
| Extensions.InvalidNeverMatters | internal/controller/kdexhost_extensions.go:81-86 | Adding or removing an extension that does not compile never changes what is applied |
| Extensions.InvalidErr | internal/controller/kdexhostextension_controller.go:98-105 | The compile error of a rejected extension of that name, or nothing |
| Extensions.DecideReason | internal/controller/kdexhostextension_controller.go:43-76 | The reason says where the selection put the name, or that the host is missing; none when host or siblings cannot be read |
| Extensions.ExtensionObject.Reconcile | internal/controller/kdexhostextension_controller.go:37-85 | Reports that reason and the observed generation; a deleted extension, a failed read, list or patch leaves the status alone |
| Extensions.HostRecord.ResolveExtensions | internal/controller/kdexhost_extensions.go:107-148 | Writes the applied extensions and records their generations; a failed list changes nothing; an unparseable selector forgets every generation |
| Extensions.GenerationsExact | internal/controller/kdexhost_extensions.go:112-139 | The extension generation attributes are exactly those of the applied extensions; others are as they were |
| Extensions.ReconcilersAgree | internal/controller/kdexhostextension_controller.go:56-85 | For one host and siblings with unique names, Attached is reported if and only if the extension is among those written to the internal host, LimitExceeded iff in overflow, InvalidClaimMappings iff in invalid |
| ChartCache.KeyInjective | internal/utils/chart_cache.go:44-46 | Where versions have no "@" and hashes no "#", equal keys are equal chart, version and credential |
| ChartCache.KeyCollides | internal/utils/chart_cache.go:44-46 | Either character in the wrong field lets two requests share a key |
| ChartCache.ChartPathCache.Evict | internal/utils/chart_cache.go:67-77 | Below the cap nothing goes; otherwise entries go until one place is free; a cap of zero or less empties the cache |
| ChartCache.ChartPathCache.Store | internal/utils/chart_cache.go:64-80 | Evicts, then stores; the size keeps to a positive cap |
| ChartCache.ChartPathCache.Get | internal/utils/chart_cache.go:51-81 | With any other calls' sections in between, a returned path is the request's own download and is cached under its key; a hit changes nothing |
| ChartCache.CacheRefinesLoad | internal/utils/chart_cache.go:51-81 | In every interleaving each call returns what the direct download returns, and the size keeps to the cap |
| ChartCache.LoadedOnceFromStart | internal/utils/chart_cache.go:48-50 | A key is downloaded at most once while its calls do not overlap and it is not evicted |
| ChartCache.AtMostOnceIff | internal/utils/chart_cache.go:48-80 | In a reachable state, every later run without overlapping calls for the key or an eviction of it has downloaded it at most once, if and only if it is absent and never downloaded, present and downloaded once, or one call is busy with it |
| ChartCache.StepKeepsOnceIff | internal/utils/chart_cache.go:48-80 | In such a state, a step leads only to runs that download the key at most once if and only if it starts no call for it beside another one and evicts no entry of it |
| ChartCache.OverlapLoadsTwice | internal/utils/chart_cache.go:48-65 | From any such state, a lookup beside another call for the key can end in two downloads |
| ChartCache.EvictionLoadsTwice | internal/utils/chart_cache.go:67-78 | A store that evicts the key can be followed by a second download of it |
| AppStatus.NormalizeForCompare | internal/controller/kdexapp_controller.go:252-259 | In place, the conditions become the same conditions without times, sorted by type |
| AppStatus.ObjectStatusEqual | internal/controller/kdexapp_controller.go:241-247 | With unique types, equal exactly when both agree as maps from type to everything but the time |
| AppStatus.NormalFormsAgree | internal/controller/kdexapp_controller.go:241-259 | Normalisation is canonical: any two normal forms are equal exactly when the lists agree as maps |
| AppStatus.App.Reconcile | internal/controller/kdexapp_controller.go:86-185 | A write is tried exactly when the computed status differs; a conflict requeues, a refusal is the error, and neither changes the stored status; the status then says Ready "True" and Degraded "False" exactly when the secret is there or not needed and validation passed, else the error, with the attempts counted; it settles exactly then and requeues up to the tenth attempt |
| AppStatus.ComputedReports | internal/controller/kdexapp_controller.go:125-180 | The status a pass arrives at, in words: conditions, messages, attempts and secret generation by what secret and validation said, everything else as it was |
| AppStatus.ComputedSettlesIff | internal/controller/kdexapp_controller.go:86-183 | A pass over its own result arrives at it again if and only if validation did not fail |
| AppStatus.AtMostOneWrite | internal/controller/kdexapp_controller.go:86-112 | Over unchanged inputs any run makes at most one successful write unless validation fails; then it writes whenever it is let |
| AppStatus.RunIgnoresClock | internal/controller/kdexapp_controller.go:86-112 | Whether a pass writes never depends on its clock: runs that differ only in clocks write in the same passes |
| EnvVars.MergeEnvVars | internal/controller/utils.go:252-271 | The loop with its index map computes the union; the caller's slots hold the merge as it stood when the list first had to move, which is all of it if no name is new |
| EnvVars.MergeIsUnion | internal/controller/utils.go:252-271 | Under last-wins lookup the merge is the right-biased union |
| EnvVars.MergeKeepsOrder | internal/controller/utils.go:252-271 | Existing names keep their places; no name occurs more often than before, new ones once |
| EnvVars.NewNamesFirstOccurrence | internal/controller/utils.go:263-267 | Appended names come in the order of their first occurrence |
| EnvVars.MergeIdempotent | internal/controller/utils.go:252-271 | Merging the same overrides again changes nothing |
| Registry.MatchesBySegments | internal/utils/helm.go:312-330 | A reference matches a non-empty repository if and only if the repository's path segments start the reference's |
| Registry.MatchesNest | internal/utils/helm.go:312-330 | Two repositories that match one reference lie one above the other |
| Registry.SchemeIsIrrelevantIff | internal/utils/helm.go:239-269 | A scheme never matters; leaving it out gives the same reference exactly when no double slash follows |
| Registry.FindSecret | internal/utils/helm.go:260-271 | The first Helm secret whose repository the reference belongs to |
| Registry.HelmClient.RegistryBind | internal/utils/helm.go:233-310 | A credential is offered only to a registry below its repository; a failure leaves the client as it was; the first covering secret decides plain HTTP, skipped verification, and a credential exactly when it has both parts |

## Left out

- Condition lists in the host's merge patches, replaced whole by RFC 7396: only attributes are modelled there, so nothing is claimed about the condition overlay at kdexhost_controller.go:138-154.
- The attribute map that the in-progress patch shares between the fetched and the in-memory host (kdexhost_controller_helm.go:330-337): decoding the response may add keys to it.
- Extensions.ExtensionObject.Reconcile: the texts of the condition's messages; the reason and the compile error are modelled.
- Translations.OrderTranslationSources: the quoting of a name in the collision text is a parameter.
- TranslationResolution.Resolver.WriteCopy: labels, annotations and the copy's own status patch; the recorded generation is that of the label.
- HelmTeardown.TeardownSafeIff: a release under the host's own name that carries another host's label counts as that host's, because that host's workers may install it at any time.
- HelmPass.RunPass: the calls of a superseded worker in between; HelmConvergence, HelmSuccess and HelmRename have them.
- HelmConvergence.HostStaysCurrentIff, CompanionsStayDeclaredIff and HelmSuccess.PassIsRightIff: hosts of one namespace that share release names, or a companion named like its host: they overwrite each other's releases.
- HelmClients: concurrency, as every operation holds the mutex throughout.
- Registry.HelmClient.RegistryBind: URL parsing is a parameter, TLS and HTTP options are two flags. `Secrets.Find` is not part of this repository and is taken as the first match.
- SHA-256, CEL compilation, label selector parsing, YAML and JSON encoding, chart rendering: uninterpreted functions or failures.
- `SetConditions` is not part of this repository; it is an upsert per type that moves the time only on a status change.
- Leader election overlap of two controller instances, panics, stale informer reads and wall-clock backoff; the backoff is a free choice.
- Locking of the shared configuration; a configuration change is an atomic step.
- Utility pages, the internal host resource, webhooks, watch handlers, and the other page, theme and library reconcilers: single-branch code or the status guard repeated.
- The deferred error path of a reconcile whose error is "not found" returns without a status write; the model includes that as a failing deferred read.
