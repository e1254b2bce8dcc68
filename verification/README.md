# Convergence of the bundle controller

This project models the part of the bundle controller that makes a cluster converge on what bundles ask for, and
proves what that logic achieves when calls fail, reconciles interleave and users edit bundles.

| file | content |
|---|---|
| `Trees.dfy` | value trees, pruning (`RemoveNulls`) and merging (`mergeMaps`), and their laws |
| `TreesHeap.dfy` | `RemoveNulls` inside mutable maps |
| `ValuesField.dfy` | the `Values` field: JSON text and decoded map, storing and reloading |
| `Api.dfy` | the API server: objects by reference, calls that work, get lost, or work and still report an error |
| `Ledger.dfy` | `Diff`, `SyncDiff`, `ApplyResource`, the skip annotations |
| `LedgerLaws.dfy` | the goal of a sync, and that the ledger forgets nothing |
| `LedgerGaps.dfy` | which objects a sync leaves unrecorded, and what the skip annotations can and cannot do, exactly |
| `Native.dfy` | `Apply` and `Remove` for kustomize and template bundles, steady state |
| `Retry.dfy` | convergence of retries |
| `Resolve.dfy` | values from ConfigMaps and Secrets, and the watch on them |
| `Controller.dfy` | one `Reconcile`: finalizer, deletion, dependency gate, appliers by kind |
| `Reconciles.dfy` | what a completed reconcile does: status, end of a deletion, steady state |
| `Outcomes.dfy` | what one reconcile leaves, field by field |
| `Lifecycle.dfy` | whole runs of one bundle, with reading, working and writing apart |
| `LeakRuns.dfy` | runs that end with the bundle released and its objects left behind |
| `Dependencies.dfy` | interleaved reconciles of many bundles |
| `Progress.dfy` | that bundles without dependency cycles get installed |
| `Helm.dfy` | helm release histories |

## How the model works

Every call to the API server happens at a tick of a clock, and an arbitrary function of the clock decides its fate:
it works, it is lost, or it takes effect and still returns an error. The statements below hold for every such
function unless they ask for a milder one. Server-side apply is an arbitrary function of live content and manifest of
which three laws are assumed (`Api.Lawful`): applying the same manifest again changes nothing, a manifest applied to
itself stays itself, and applied to a bare object it yields itself. Key-by-key merging is such a function (`Api.MergeIsLawful`).

Classes stand for the objects the Go code updates in place (client, syncer, bundle, stored bundle, release storage,
mutable maps). Each method is proved equal to a function of the old state, or to a relation where the Go code is not
deterministic (map iteration, unstable sorting); the theorems are about these functions and relations, and runs are
sequences of them. Rendering, JSON, YAML, `--set` parsing, Helm's install and upgrade are parameters; `ValuesField.Faithful`,
`Resolve.Ordered` and `Helm.Modest` state what is assumed of them.

In `Lifecycle.dfy` a reconcile is three steps: it reads the bundle through a cache that may lag behind, works on the
cluster with that copy, and writes the bundle back, which takes effect only if the resource version is still the one
that was read. Edits, the request for deletion and crashes, also in the middle of the work, fall anywhere in between.

The following results say where the code does not do what a reader of its documentation, its names or its comments
expects. Each gives the exact condition, and an input or a run on which it happens:

- Deleting a bundle removes what it installed (`docs/kustomize.md`, `docs/helm.md`): for each recorded object, and for the
  helm release, `Reconciles.DeletionCleansUp` and `Reconciles.HelmDeletionCleansUp` say when it survives. The main case is a
  bundle in phase Failed, which is released without removing anything (`pkg/controllers/bundle.go:60`);
  `LeakRuns.FailedBundleLeaks` is a run in which one failed download is enough.
- A bundle that is being deleted creates nothing: true unless a reconcile that read the bundle before the request works
  after it (`Lifecycle.NothingComesBack`). `LeakRuns.LateWorkLeaks` is such a run; no call fails in it, and everything
  the bundle renders is left behind unrecorded.
- What a failed sync created is recorded: `LedgerGaps.ForgottenExactly` for one sync, `Lifecycle.RecordedExactly` for
  whole runs, where a failed sync records nothing and only a later success on a render with the object does.
- The annotation value `OnDelete` protects from deletion: the loop honours it on any list (`LedgerGaps.SkipsAreHonoured`),
  but `Diff` rebuilds the objects from their reference and never yields an annotated one (`LedgerGaps.OnDeleteNeverFires`).
- `removeHistories` keeps `max` records: only if there are that many; below, it deletes every record but the newest
  deployed one (`Helm.RetentionIsMinimum`, `Helm.LoneRecordIsLost`).
- An installed bundle is left alone: after a reload of the status only if the resolved values hold no null, no empty map
  and no integer (`Native.SteadyState`); `--set` style entries produce integers (`Reconciles.IntegerEntryReapplies`).

## Model

| member | source | states |
|---|---|---|
| Trees.PruneIsTheNormalForm | pkg/apis/bundle/v1beta1/type_values.go:78-96 | pruning a map is the only map that holds exactly the same data at the same paths and no null or empty map below the root |
| Trees.PruneFixesNormal | pkg/apis/bundle/v1beta1/type_values.go:80-96 | pruning changes nothing exactly when there is nothing to remove, so a second run changes nothing |
| Trees.PruneKeepsData | pkg/apis/bundle/v1beta1/type_values.go:80-96 | every path to a scalar or list survives unchanged and no new one appears |
| TreesHeap.MapObject.RemoveNulls | pkg/apis/bundle/v1beta1/type_values.go:80-96 | the in-place recursion, in any iteration order, turns a mutable map into its pruned self and touches nothing outside it |
| TreesHeap.MapObject.RemoveNullsAt | pkg/apis/bundle/v1beta1/type_values.go:83-93 | one iteration settles one key: pruned value kept, or the key deleted; all other keys keep their values |
| Trees.MergeMaps | pkg/controllers/bundle.go:220-237 | the two loops, in any iteration order, compute the merge |
| Trees.MergeData | pkg/controllers/bundle.go:220-237 | what a merge is for: data comes from the right operand, and from the left exactly where the right is silent on the path |
| Trees.MergeIdentity | pkg/controllers/bundle.go:220-237 | the empty map is neutral on both sides |
| Trees.MergeAbsorbs | pkg/controllers/bundle.go:220-237 | merging the same right operand again changes nothing |
| Trees.MergeIdempotent | pkg/controllers/bundle.go:220-237 | merging a tree with itself gives the tree |
| Trees.MergeAssociative | pkg/controllers/bundle.go:220-237 | merging is associative exactly when no path has a map, a non-map, and a map that forgets part of the first |
| Trees.MergeNotAssociative | pkg/controllers/bundle.go:226-234 | a concrete map, scalar, map triple for which grouping matters |
| Trees.MergeCommutes | pkg/controllers/bundle.go:220-237 | two trees may be merged in either order exactly when they never disagree |
| Trees.MergeOrderIrrelevant | pkg/controllers/bundle.go:195-201 | merging a list of pairwise agreeing maps into any base gives the same result for every permutation |
| Trees.PruneOfMerge | pkg/controllers/bundle.go:213-216 | pruning distributes over a merge whose right operand is in normal form |
| Trees.MergeOfNormals | pkg/controllers/bundle.go:213-216 | merging two values in normal form gives a value in normal form |
| ValuesField.Receiver.Unmarshal | pkg/apis/bundle/v1beta1/type_values.go:49-65 | decodes into fresh maps, prunes them, keeps the text even when it does not decode, ignores null |
| ValuesField.FullFillTwice | pkg/apis/bundle/v1beta1/type_values.go:38-47 | filling in the missing half is idempotent |
| ValuesField.FullFillMeans | pkg/apis/bundle/v1beta1/type_values.go:38-47 | the half that is there stays; a missing text is the encoded map, a missing map the decoded and pruned text if it decodes |
| ValuesField.StoreMeans | pkg/apis/bundle/v1beta1/type_values.go:49-76 | what is stored is the text if there is one, else the encoded map, and no entries for absent values; what is read back is that, pruned |
| ValuesField.EqualMeans | pkg/utils/values.go:7-9 | the comparison of values holds exactly for equal maps, an absent map being one without entries |
| ValuesField.LoadTwice | pkg/apis/bundle/v1beta1/type_values.go:49-76 | a field that was loaded once is stable under storing and loading |
| ValuesField.StoreKeeps | pkg/apis/bundle/v1beta1/type_values.go:38-76 | a computed map compares equal after store and load exactly when it is in normal form and holds no integer |
| Ledger.Diff | pkg/utils/apply.go:26-52 | the split: new references in order, known ones in order, and the recorded ones no longer rendered in any order |
| Ledger.DiffExact | pkg/utils/apply.go:26-52 | creates and applies deal out the input in order; creates are distinct, unmanaged and first occurrences; removes are exact, once each; both are empty exactly when the reference sets agree |
| Ledger.SkippedMeans | pkg/utils/apply.go:195-203 | an object is skipped for an option without commas exactly when its annotation has the option somewhere between commas or the ends |
| Ledger.DescendingMeans | pkg/utils/apply.go:137-140 | of two entries of a sorted ledger the earlier has the same API version or the greater one, strings compared position by position |
| Ledger.Syncer.CreateNsIfNotExists | pkg/utils/apply.go:148-155 | creates a missing namespace, leaves an existing one alone |
| Ledger.Syncer.ApplyObject | pkg/utils/apply.go:162-193 | create when absent, server-side apply when present, error when the read fails |
| Ledger.Syncer.CreateAll | pkg/utils/apply.go:81-93 | the create loop: a failure is noted and the reference not recorded |
| Ledger.Syncer.ApplyAll | pkg/utils/apply.go:96-114 | the apply loop: the reference is recorded first; OnUpdate objects are not written |
| Ledger.Syncer.RemoveAll | pkg/utils/apply.go:116-135 | the remove loop: not-found counts as removed, what cannot be deleted stays recorded |
| Ledger.Syncer.SyncDiff | pkg/utils/apply.go:74-146 | the three loops in sequence, any sorting by descending API version, an error if any call failed |
| Ledger.Syncer.Sync | pkg/utils/apply.go:70-72 | split, then carry out |
| LedgerLaws.GoalHasRender | pkg/utils/apply.go:81-114 | in the goal state every rendered object is created or patched, unless it is recorded and skipped on updates |
| LedgerLaws.GoalElsewhere | pkg/utils/apply.go:116-135 | in the goal state what is recorded and not rendered is gone, and everything else is as it was, passing namespaces aside |
| LedgerLaws.StepKeepsGoal | pkg/utils/apply.go:81-135 | no single step, whatever happens to its calls, moves the goal state |
| LedgerLaws.SyncKeepsGoal | pkg/utils/apply.go:74-146 | no run, however it fails, moves the goal state |
| LedgerLaws.SyncReachesGoal | pkg/utils/apply.go:74-146 | a run that reports no error has reached the goal exactly, whatever else failed unnoticed |
| LedgerLaws.SyncFaultFree | pkg/utils/apply.go:74-146 | without failures no error is reported |
| LedgerLaws.SyncedLedger | pkg/utils/apply.go:137-145 | without an error the ledger is a permutation of the rendered references, sorted descending |
| LedgerLaws.LedgerConserved | pkg/utils/apply.go:74-146 | if failed calls have no effect, everything recorded or rendered that exists afterwards is recorded afterwards |
| LedgerLaws.LedgerDropsOnlyAbsent | pkg/utils/apply.go:116-135 | under any failures, a reference that left the ledger is not in the cluster |
| LedgerGaps.ForgottenExactly | pkg/utils/apply.go:81-93 | of the new objects a run creates, exactly those stay unrecorded whose namespace exists, whose read works and whose create takes effect but reports an error, whatever else fails |
| LedgerGaps.AmbiguousCreateIsForgotten | pkg/utils/apply.go:86-91 | the smallest such case |
| LedgerGaps.OnUpdateIsHonoured | pkg/utils/apply.go:96-102 | under any failures a recorded, rendered object that lists OnUpdate anywhere is left as it is and stays recorded |
| LedgerGaps.SkipsAreHonoured | pkg/utils/apply.go:116-121 | for any split: after a run without an error, an object not to be created or applied exists exactly when it did before and all its entries among the removals list OnDelete |
| LedgerGaps.OnDeleteNeverFires | pkg/utils/apply.go:41-48 | `Diff` never yields an annotated removal, so after a sync without an error an object that is not rendered survives exactly when it was not recorded |
| Native.Applier.SetNamespaceIfNotSet | pkg/bundle/native/native.go:92-101 | in place: namespaced objects without a namespace get the given one, all others stay |
| Native.Applier.Apply | pkg/bundle/native/native.go:36-79 | render error, fast path, failed sync and successful sync, with the status each leaves |
| Native.Applier.Remove | pkg/bundle/native/native.go:81-90 | sync against nothing; the status changes only on success |
| Native.AppliedTotal | pkg/bundle/native/native.go:36-79 | every call has an outcome, whatever the state and the failures, so the statements about outcomes are never empty |
| Native.AppliedRecordsRender | pkg/bundle/native/native.go:55-78 | a nil return by either path means Installed and a ledger of exactly the rendered references; on the slow path sorted, with the values, version and namespace just applied |
| Native.AppliedPlaces | pkg/bundle/native/native.go:47-71 | after a nil return the ledger lists exactly the places where the manifests belong: the namespace the bundle chooses, else its own, for namespaced manifests that name none, and as written for all others; the values on record are those asked for, and on the slow path the namespace on record is the chosen one |
| Native.AppliedContents | pkg/bundle/native/native.go:36-71 | after a nil return every manifest the status did not account for is in the cluster where it belongs, created as it is or server-side applied to what was there, recorded objects that list OnUpdate excepted |
| Native.AppliedFaultFree | pkg/bundle/native/native.go:36-79 | without failures, whatever renders installs |
| Native.FastPathMeans | pkg/bundle/native/native.go:55-62 | the fast path is taken exactly in phase Installed with equal maps of values and equal sets of references, whatever the order of the split |
| Native.RemovedClears | pkg/bundle/native/native.go:81-90 | under any failures removal creates and changes nothing and stays inside the ledger; on success exactly the ledger is gone and nothing is recorded |
| Native.RemovedExactly | pkg/utils/apply.go:116-135 | in some order of the ledger the i-th object survives removal exactly when it was there and the i-th call is lost; removal succeeds exactly when all these calls work |
| Native.SteadyState | pkg/bundle/native/native.go:55-68 | after success and a reload the next call takes the fast path exactly when the values are normal and hold no integer |
| Native.SteadyStateKeeps | pkg/bundle/native/native.go:55-64 | that next call changes neither status nor cluster |
| Retry.RetriesConverge | pkg/bundle/native/native.go:36-79 | after any attempts with any failures, lost status writes included, every failure-free attempt succeeds and reaches the references and objects of a failure-free first attempt: all objects, unless an installation was recorded meanwhile that removed a namespace which other objects still need, and then all but such namespaces |
| Retry.PendingArrives | pkg/bundle/native/native.go:63-67 | before an installation is recorded, a failure keeps status and goal, and a success arrives at the goal |
| Retry.SettledStays | pkg/bundle/native/native.go:55-67 | after an installation is recorded, no attempt moves the objects away from the goal, namespaces aside that the installation removed although they are needed |
| Resolve.Resolver.ResolveValuesRef | pkg/controllers/bundle.go:167-218 | references in order, inlined values last; on an error the spec stays as it was |
| Resolve.Resolver.ResolveOne | pkg/controllers/bundle.go:170-211 | one reference: kind in any case, optional objects may be missing, files before single entries |
| Resolve.RefMeans | pkg/controllers/bundle.go:170-211 | map by map: a found Secret assigns each entry once, in some order, under its prefixed key to the map before; a found ConfigMap merges every file first and assigns every entry after that; the first entry that fails is the failure; missing, unreachable and unknown references as in the source |
| Resolve.ResolvedMeans | pkg/controllers/bundle.go:167-218 | starting from the empty map each reference works on what the one before it produced, the first failure decides, and the inlined values go over the last map |
| Resolve.InlinedValuesWin | pkg/controllers/bundle.go:213-214 | whatever data the spec states inline is in the resolved values |
| Resolve.FileOrderIrrelevant | pkg/controllers/bundle.go:195-201 | files that parse and agree pairwise give the same result in every iteration order |
| Resolve.Notifier.Trigger | pkg/controllers/notifier.go:13-37 | requests for exactly the bundles in the namespace of a ConfigMap or Secret one of whose references has its kind and name |
| Resolve.ChangeIsNoticed | pkg/controllers/notifier.go:28-35 | if every kind the resolver knows is spelt as the watch compares it, a change of configurations that changes what a bundle resolves to is a change of an object that re-queues it |
| Resolve.MisspeltIsNotNoticed | pkg/controllers/notifier.go:31 | for every other spelling the resolver knows, such as "configmap", there is a change that is resolved but never re-queues the bundle; the resource definition (pkg/apis/bundle/v1beta1/bundle_types.go:66) refuses such kinds, so the condition always holds |
| Controller.CheckDependency | pkg/controllers/bundle.go:125-165 | passes exactly when every named dependency, read where its fields or their defaults say, exists and is Installed if it is a bundle; else reports not found, read error or not installed for the first that is not in order |
| Controller.BundleReconciler.Sync | pkg/controllers/bundle.go:99-114 | removal when disabled or deleted, else gate, values, applier |
| Controller.BundleReconciler.ApplyByKind | pkg/bundle/bundle.go:62-71 | download, then native, helm or an error |
| Controller.BundleReconciler.RemoveByKind | pkg/bundle/bundle.go:73-78 | native, helm or an error |
| Controller.BundleReconciler.Reconcile | pkg/controllers/bundle.go:36-81 | one finalizer write, or a sync and one status write that records Failed after an error |
| Reconciles.StatusMoves | pkg/controllers/bundle.go:46-81 | how one reconcile can move the status of a native bundle |
| Reconciles.DeletionTerminates | pkg/controllers/bundle.go:59-81 | two reconciles with successful writes release the bundle, for every kind and every outcome of removal |
| Reconciles.DeletionCleansUp | pkg/controllers/bundle.go:59-68 | for every server: at the release a recorded object is still there exactly when it was there and the bundle was in phase Failed or the object's delete call was lost |
| Reconciles.HelmDeletionCleansUp | pkg/bundle/helm/helm.go:55-84 | at the release the helm release is still stored exactly when it was and the phase was Failed or Disabled or the uninstall was lost; other releases stay as they are |
| Reconciles.ReconcileIsAttempt | pkg/controllers/bundle.go:70-80 | a reconcile that passes the gate is an attempt in the sense of the retry theorem |
| Reconciles.SecondReconcileIsIdle | pkg/controllers/bundle.go:70-80 | after an installing reconcile the next one on the same values changes nothing |
| Reconciles.IntegerEntryReapplies | pkg/controllers/bundle.go:202-207 | a bundle whose values come from one ConfigMap entry that parses to an integer never takes the fast path, however often it was installed |
| Outcomes.FinalizerMoves | pkg/controllers/bundle.go:46-68 | when the finalizer is added and dropped, that such a reconcile does nothing else, and that no other touches it |
| Outcomes.GateMeans | pkg/controllers/bundle.go:104-112 | the applier is asked exactly when all dependencies are in order, the values resolve and the download works, and gets the resolved values as map and text |
| Outcomes.StoppedReconcile | pkg/controllers/bundle.go:70-80 | a reconcile stopped before the applier leaves the cluster alone and stores Failed with the old ledger |
| Outcomes.MissingDependencyStops | pkg/controllers/bundle.go:148-163 | in particular for a dependency of any kind that is missing or unreadable, and for a bundle that is not Installed |
| Outcomes.NativeInstalls | pkg/bundle/bundle.go:62-71 | a kustomize or template bundle that is ready and renders is Installed without failures, its ledger the places where its manifests belong |
| Outcomes.HelmInstalls | pkg/bundle/helm/helm.go:34-53 | what a ready helm bundle stores for each way the chart can end, and under which name its release is kept |
| Outcomes.OtherKindsFail | pkg/bundle/bundle.go:62-78 | any other kind is Failed and nothing happens for it |
| Outcomes.DisabledNativeGoes | pkg/controllers/bundle.go:99-103 | a disabled kustomize or template bundle loses exactly what it recorded, or is Failed with its ledger kept; without failures the former |
| Outcomes.DisabledHelmGoes | pkg/bundle/helm/helm.go:55-76 | a disabled helm bundle is uninstalled once, and Failed if that reports an error |
| Lifecycle.LandedIsReconciled | pkg/controllers/bundle.go:36-81 | whatever users do between read and write, a write that lands completes a reconcile of the bundle as it is stored |
| Lifecycle.RunIsSound | pkg/controllers/bundle.go:49-80 | in every run, for every kind, a phase without deletion implies the finalizer; while the kinds are native, Disabled implies an empty ledger |
| Lifecycle.EnteringDisabledCleans | pkg/bundle/native/native.go:81-90 | the write that makes a native bundle Disabled finds nothing of the ledger before it in the cluster, and empties the ledger |
| Lifecycle.NothingComesBack | pkg/controllers/bundle.go:39-112 | from the request for deletion on, for every kind, no object is created or changed, unless a reconcile works on a copy of a version from before the request |
| Lifecycle.RecordedExactly | pkg/bundle/native/native.go:63-67 | an object that exists from m to j is recorded at j exactly when it was at m or the write of a successful installation that renders it landed in between |
| LeakRuns.FailedBundleLeaks | pkg/controllers/bundle.go:59-75 | for every bundle that can be installed: a run through Installed, an edit, a failed download and Failed to a release that leaves everything installed and recorded behind |
| LeakRuns.LateWorkLeaks | pkg/controllers/bundle.go:39-112 | for every bundle that can be installed: a run without a failing call in which everything appears after the request for deletion and is left behind unrecorded at the release |
| Dependencies.DependenciesComeFirst | pkg/controllers/bundle.go:125-165 | in every interleaved run, also with lagging reads, restarts and failures, a bundle is Installed only after all bundles it depends on were |
| Dependencies.DependencyComesFirst | pkg/controllers/bundle.go:126-136 | the same for one dependency with its namespace and kind completed field by field |
| Dependencies.ClosedSetsStayOut | pkg/controllers/bundle.go:125-165 | bundles each of which depends on one of them are never Installed |
| Dependencies.CyclesStayOut | pkg/controllers/bundle.go:125-165 | no bundle on a dependency cycle, self-dependency included, is ever Installed |
| Progress.VisitIsReconcile | pkg/controllers/bundle.go:46-80 | the visit used for progress is what an undisturbed `Reconcile` does to a kustomize, template or helm bundle when nothing fails |
| Progress.ReconcilesInstall | pkg/controllers/bundle.go:46-80 | sweeps of undisturbed reconciles over all bundles on a shared cluster, in any orders: a bundle of dependency depth d is Installed after d + 2 sweeps and after every later one |
| Progress.SweepsExist | pkg/controllers/bundle.go:46-80 | such sweeps can be carried out to the end from every state and in any orders, so the statement above is not empty |
| Helm.Storage.ChooseDoomed | pkg/bundle/helm/helm-cli.go:192-205 | the loop with its early exit selects the newest others, as many as exceed the limit, or all below it |
| Helm.Storage.RemoveHistories | pkg/bundle/helm/helm-cli.go:178-212 | sorting, selection and deletion up to the first failure |
| Helm.ExactRetention | pkg/bundle/helm/helm-cli.go:192-205 | with enough records exactly the limit survives: the newest deployed one and the oldest others |
| Helm.NewestDeployedSurvives | pkg/bundle/helm/helm-cli.go:195-198 | the newest deployed record survives for every limit and failure point |
| Helm.RetentionIsMinimum | pkg/bundle/helm/helm-cli.go:199-204 | min(n, limit) records survive exactly when the limit is reached or there is nothing else to lose |
| Helm.LoneRecordIsLost | pkg/bundle/helm/helm-cli.go:192-205 | with the limit of two, a history of one record that is not deployed is emptied |
| Helm.Chart.ApplyChart | pkg/bundle/helm/helm-cli.go:65-92 | installs on an empty history; does nothing when the newest release is deployed with the very values asked for; in every other case prunes to two records and upgrades what is left |
| Helm.ChartStepMeans | pkg/bundle/helm/helm-cli.go:78-92 | the same about the relation the bounds below are proved for |
| Helm.ChangeBounds | pkg/bundle/helm/helm-cli.go:88-92 | a call that changes a history leaves at most three records, however many there were |
| Helm.HistoryStaysBounded | pkg/bundle/helm/helm-cli.go:65-92 | over any sequence of calls, each with its own values and outcome, a history of at most three records stays within three |

## Left out

- Downloading, kustomize, templates and YAML splitting: rendering is an arbitrary function of the spec that may fail, the download an input that succeeds or not.
- Helm install, upgrade and uninstall, chart loading and dry runs: in each call histories change by an arbitrary function that adds at most one record, statuses and the stored release by the outcome given. The objects of helm releases are not in the modelled cluster.
- JSON, YAML and `strvals` themselves: parameters; numbers are exact, so rounding of large integers to floats is not modelled.
- Sharing of sub-maps between merged values, and the in-place work of `strvals.ParseInto` on the base map: merging and resolving are modelled on values.
- The client-side merge patch and the options that switch server-side apply or namespace creation off: the controller always passes the defaults.
- Messages, timestamps, app versions, logging, events, and the text of errors.
- Deep copies, command line, manager setup, leader election, probes.
- Cascading deletion when a namespace goes, finalizers of other controllers, objects shared between bundles, changes by third parties, and loss of managed fields under server-side apply.
- A failed or not-found read at the start of `Reconcile`: it changes nothing. A failed `List` in the watch: it drops the event.
- Fields of an object reference other than API version, kind, namespace and name: the controller never sets them.
- Reads of rendered objects through a cache: they show the cluster as it is; reads of bundles may show any past state in `Lifecycle.dfy` and `Dependencies.dfy`.
- A second controller at work on the same bundle at the same time, as after a lost leader election.
- Trees.MergeMaps: the result is a value, so that it shares sub-maps with its inputs is not captured.
- Lifecycle.RunIsSound: the part about the ledger holds as long as the kind is kustomize or template; a helm bundle keeps its recorded resources when it becomes Disabled.
- Lifecycle.RecordedExactly: native kinds only; helm keeps its own record of what a release contains.
- Retry.RetriesConverge: asks for distinct rendered references; a reference rendered twice is written twice, and the order of partial writes can then matter.
- Progress.ReconcilesInstall: reconciles in a sweep follow each other; interleaving is covered by the safety results only.
