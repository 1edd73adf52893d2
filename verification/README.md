# A verified model of the KITT agent core

KITT (the `kitt` package) runs coding agents on a workspace. This project models the parts of it whose
correctness depends on many steps going together, and proves what they promise, for every input and every
run of the model:

- **Artifact store** (`BlobProtocol`, `TextSearch`). Content-addressed blobs shared by concurrent `put`
  and `collect_garbage` calls, as a state machine whose steps are single transactions and single
  file-system operations; and the bounded-memory text search over a stored artifact.
- **Child agents** (`ChildLifecycle`, `ChildBudget`, `ChildRow`, `ChildInbox`, `ChildDelivery`). The child
  state machine with its pool jobs, late results, approvals and reassignments; the budget lease and its
  settlement; the lock-held methods as updates of one row; message delivery in batches of sixteen; and
  delivery together with the lifecycle, with workers that die midway.
- **Path scopes** (`PathScopes`). Canonical scopes and their narrowing along a chain of agents.
- **Backend IR** (`DependencyGraph`, `BackendIr`). Validation with depth-first cycle detection, change
  planning and acceptance.
- **Context** (`ContextSelector`, `ExplicitFiles`, `RankFusion`, `ContextRetrieval`, `ContextEnvelope`,
  `ContextCache`). The greedy selector, the fair-share loop over requested files, what rank fusion does to
  them, the budgeted envelope with binary-search truncation, and the LRU cache.
- **Plan depth** (`PlanDepth`). The layered loop that computes dependency depths.
- `Orders` holds stable sorting and the order of strings; `Common` holds `Option`, `Max` and `Min`.

Code that updates state is modelled by classes, methods and loops. Each is proved equal to a function on
values or to a stated property, and the results about whole runs are lemmas about those functions.
What such a function gives is stated once more by a lemma in the fields of the values themselves, without the
function and its helpers, so that no result rests on a definition alone.
Concurrency is modelled by interleaving. Every lemma carries `{:induction false}`: no proof here rests on
automatic induction.

## What the proofs found

The code does not have these properties in full. Each has a lemma with a failing case and, unless it says
otherwise, an exact condition:

- **A dangling artifact.** When a blob's rename fails and the compensating delete of its row then does not
  happen, because it is rolled back or because removing the temporary file raised before it, the row stays
  without a blob (`RolledBackUndoDangles`). That is the only way a finished `put` leaves one
  (`DanglingIsExplained`). At the end of any run a FILE row dangles if and only if its content was not
  stored when the row was inserted and no rename of anyone stored it afterwards (`RowDanglesIff`).
- **An artifact collected while it is read.** `read` fetches the row and opens the blob later, so a
  collection in between can take both (`CollectedWhileRead`). The open misses the blob if and only if a
  collection took it for good since the row was fetched, or it had never been stored
  (`ReadMissesBlobIff`); it never does while the row of a finished `put` is still there
  (`ReadOfLiveRowFindsBlob`), and no read ever gives other content (`ReadsBackWhatWasPut`).
- **Text search by storage kind.** A FILE artifact is read in text mode, which rewrites carriage returns,
  while an INLINE one is not; the two kinds search the same text exactly when it has none
  (`KindsAgreeIff`, `CarriageReturnMovesMatch`). A character whose case folding is longer than one
  character moves offsets when the window is trimmed past it. The rolling window is the search of the
  whole text when every character that can be trimmed away folds to one (`FileSearchIsTextSearch`); for a
  text that begins with an expanding character that bound is exact, and beyond it the FILE search reports
  one offset less than the INLINE search (`ExpandingFoldMovesMatchIff`).
- **Explicitly requested files can vanish.** Rank fusion may replace a requested file's candidate by
  another candidate for the same evidence, with its own id and cost, and the selector may then drop it: a
  truncated file and a function body in it that costs more than the budget leave nothing selected
  (`SymbolDisplacesFile`, `SymbolDisplacesLongFile`). Requested files with the same content become one
  candidate (`TwinFilesMerge`, `TwinFilesAreServed`). All served files survive if and only if no two have
  the same content hash and no source's first claimant supersedes one (`ExplicitFilesSurviveIff`); semantic
  reranking, which fuses a second time, makes no difference (`RerankingTakesNothing`).
- **The LRU cache and the recency stack.** The cache is the top of the unbounded stack throughout a run
  exactly when no `get` asks for an evicted key (`TracksThroughoutIff`, `EvictedGetDiverges`,
  `EvictedGetIsReachable`); it is always the top of the stack that only hits and puts touch
  (`CacheIsTopOfHeard`).
- **An empty parent scope.** A parent scope that is present but empty does not bind, although the
  docstring of `narrow_child_paths` speaks of an intersection: an empty request then permits the whole
  workspace (`ParentBindsIffNonEmpty`).
- **Backend validation.** A truthy `spec` that is no object raises an attribute error instead of being
  reported (`ScalarSpecCrashes`, `Validate`). Null resources are accepted (`NullResourcesAreWellFormed`)
  although planning them raises: replaying the change sets of a history exists, and rebuilds the stored
  resources, if and only if no accepted module had null resources (`ReplayRebuildsSnapshots`), and planning
  an accepted module again finds nothing to do if and only if its resources are not null
  (`AcceptThenPlanIsEmpty`).
- **A child without a lease.** The first charge creates a lease with zero caps, and the worker process then
  refuses the next task (`SecondTaskRefused`). From then on a job can succeed if and only if its work is
  done in process or by an external backend, which do not look at the lease (`UnleasedSucceedsIff`,
  `UnleasedCompletesTwoIff`).
- **Settling again.** A lease can be handed to the settler more than once. A cancel does that if and only
  if the child is not terminal and its lease is marked settled (`CancelSettlesTwiceIff`): when it lands
  between a failed completion and its handler (`CancelSettlesTwice`), and when the child had completed and
  was retained, passivated or reassigned (`RetainedCancelSettlesTwice`). The other way is the report of a
  further task (`SettlesAgainIff`). The settler that ships with the runtime ignores such a call.
- **Messages of a dead worker.** A worker that dies between prompting and marking ends its child
  (`DeathStrandsMessage`). With no delivery open, some prompted message is unmarked if and only if that
  happened (`UnmarkedIffWorkerDied`); such messages stay pending and are never prompted again
  (`NothingDeliveredAfterDeath`).
- **Reordered messages.** A clock that steps back reorders messages (`ClockStepBackReorders`). A listing is
  in the order sent if and only if each of the first sixteen waiting messages is no later than every
  waiting one after it (`ListInOrderIff`), and over the whole life of a child the prompts follow the order
  sent if and only if every listing did (`PromptedInOrderIff`).

## Assumptions

- Every `with get_connection()` block is one atomic transaction, and `BEGIN IMMEDIATE` keeps other writers
  out until it ends. A method under the manager's lock is one event.
- Digests are a function of the bytes. Reading back what was put needs it to be injective, and says so.
- Identifiers made by `uuid` are new. Floating-point amounts are real numbers.
- Paths are already resolved: a path is a list of components below the root.
- Messages with equal send times are listed in the order they were inserted.
- The calls a lock-held section makes into the coordinator and the event callbacks do not raise; if
  `abandon_child` did in `_fail_child`, the child would stay RUNNING without a job.
- A file read returns at most the requested number of characters, and an empty string only at the end.
- Token counts, digests, words and white space are functions given as parameters.
- A worker process reports usage within the caps it was given and refuses a task without a positive cap;
  external backends report no usage; in-process workers report success and no usage, or raise.

## Model

| member | source | states |
|---|---|---|
| `BlobProtocol.StepKeepsRows` | kitt/artifacts/store.py:82-134 | whatever step any call takes, each FILE row still has its blob, or a put still at work on it, or a compensating delete that did not happen |
| `BlobProtocol.StepKeepsCalls` | kitt/artifacts/store.py:319-351 | whatever step any call takes, each call in flight still holds what it staged, and a collector about to unlink holds a path that no row refers to |
| `BlobProtocol.StepKeepsInv` | kitt/artifacts/store.py:82-351 | no step of any put, pin or collection breaks the store's invariant, including that every blob's bytes match its name |
| `BlobProtocol.RunKeepsInv` | kitt/artifacts/store.py:82-351 | the invariant holds after every interleaving |
| `BlobProtocol.RowIsAsPut` | kitt/artifacts/store.py:82-134 | in every run a row is what its put was given: these bytes, this expiry, inline exactly up to the limit, under the digest of the bytes |
| `BlobProtocol.PinnedWasPinned` | kitt/artifacts/store.py:314-317 | over any run a row is pinned only if it was before or the run pinned it; a put never does |
| `BlobProtocol.RowAfterStep` | kitt/artifacts/store.py:314-335 | a step takes a row away if and only if it is its undo or a collection that finds it unpinned with an expiry in the past; otherwise only a pin of it changes it |
| `BlobProtocol.RowGoesIff` | kitt/artifacts/store.py:314-351 | at the end of any run a row is gone if and only if its put was undone or some collection met it unpinned, as the pins before that left it, and past its expiry; else it is there with the last pin set |
| `BlobProtocol.ReadsBackWhatWasPut` | kitt/artifacts/store.py:141-152 | whatever runs before a read fetches the row and between that and opening the blob, it gives the bytes that were put, or finds the row missing or expired, or the blob missing: never other content, never a corrupt blob |
| `BlobProtocol.ReadMissesBlobIff` | kitt/artifacts/store.py:141-152 | the open misses the blob if and only if the fetched row is an unexpired FILE row and, since the fetch, a collection unlinked its blob and nobody stored it again, or it had not been stored and was not |
| `BlobProtocol.ReadExpiresIff` | kitt/artifacts/store.py:145-146 | a read calls a row expired if and only if it is unpinned with a non-zero expiry in the past: what a collection at that time would take, an expiry of zero apart |
| `BlobProtocol.ReadChecksDigest` | kitt/artifacts/store.py:147-152 | on any store, held bytes that match the row's digest are returned, and exactly those that do not are called corrupt |
| `BlobProtocol.PinnedArtifactReads` | kitt/artifacts/store.py:141-152 | a finished artifact that is pinned when its row is fetched reads back at any time, over any run whose collections do not find it unpinned and past its expiry |
| `BlobProtocol.ReadOfLiveRowFindsBlob` | kitt/artifacts/store.py:141-152 | a read whose row is still there when the blob is opened, its put finished and its undo not failed, finds the blob |
| `BlobProtocol.MissedMeansCollected` | kitt/artifacts/store.py:141-152 | a finished artifact whose blob the open misses was collected in between: its row is gone and its blob taken for good |
| `BlobProtocol.BlobMissingIff` | kitt/artifacts/store.py:319-351 | after any run a blob is missing if and only if a collection took it for good, or it was not there before and no rename stored it |
| `BlobProtocol.CollectedWhileRead` | kitt/artifacts/store.py:141-152 | a run in which the row reads well when it is fetched and the blob is gone when it is opened |
| `BlobProtocol.LostOnlyByFailedUndo` | kitt/artifacts/store.py:121-133 | the artifacts counted as lost are exactly those whose compensating delete did not happen during the run |
| `BlobProtocol.DanglingIsExplained` | kitt/artifacts/store.py:105-133 | a row without a blob belongs to a put in flight or to one whose compensating delete did not happen |
| `BlobProtocol.QuiescentStoreIsWhole` | kitt/artifacts/store.py:82-351 | with no call in flight and every compensating delete done, every row has its blob |
| `BlobProtocol.RowDanglesIff` | kitt/artifacts/store.py:82-351 | at the end of any run a FILE row dangles if and only if its content was not stored when the row was inserted and no later rename stored it |
| `BlobProtocol.RolledBackUndoDangles` | kitt/artifacts/store.py:121-133 | a complete run after which a row dangles and its read finds no blob |
| `BlobProtocol.LiveReferenceKeepsBlob` | kitt/artifacts/store.py:336-350 | whatever step any call takes, whether the blob of a row that stays is there changes only by a rename that stores it, also when several artifacts share it; a row that goes is gone for good |
| `BlobProtocol.LiveRowPinsBlob` | kitt/artifacts/store.py:319-351 | over any run in which a row lives to the end no collection takes its blob: the blob is there at the end if and only if it was there before or a rename of the run stored it |
| `BlobProtocol.ArtifactStore.Put` | kitt/artifacts/store.py:82-134 | on any store, dangling rows included, exactly when it is too large, refused or stored; the new row in full; a stored artifact reads back until its expiry; a refused one leaves rows and blobs as they were unless its undo failed; no other row changes, the only blob added is its own, with an injective digest every old blob keeps its bytes, and a whole store stays whole |
| `BlobProtocol.ArtifactStore.UnlinkUnreferenced` | kitt/artifacts/store.py:336-350 | exactly the candidate blobs that no row refers to are removed |
| `BlobProtocol.ArtifactStore.CollectGarbage` | kitt/artifacts/store.py:319-351 | on any store a row stays if and only if it is pinned, has no expiry or one that is not past; a blob goes if and only if a removed FILE row had its digest and no remaining FILE row has; what stays is unchanged, reads as before, and a whole store stays whole; the result counts the rows |
| `TextSearch.FindIsFirst` | kitt/artifacts/store.py:224-224 | a found position is an occurrence and nothing occurs before it; not found means no occurrence at all |
| `TextSearch.OccursIffSlice` | kitt/artifacts/store.py:224-224 | an occurrence is the needle as a slice of the text |
| `TextSearch.OffsetsAreDisjoint` | kitt/artifacts/store.py:221-237 | reported offsets are occurrences that do not overlap, in increasing order |
| `TextSearch.OffsetsAreComplete` | kitt/artifacts/store.py:221-237 | every occurrence up to the last reported match, or anywhere when the limit was not reached, lies inside a reported match |
| `TextSearch.NothingLeft` | kitt/artifacts/store.py:222-226 | once nothing is left to find a larger limit changes nothing |
| `TextSearch.HitsShowContext` | kitt/artifacts/store.py:227-237 | there is one hit for each offset, in order; one whose match lies inside the text shows a slice of it that holds the match and `context` more characters on each side, fewer only at an end of the text |
| `TextSearch.BoundsAreClamped` | kitt/artifacts/store.py:209-210 | the limit used is the nearest number of 1 to 100, the context the nearest of 40 to 2000 |
| `TextSearch.SearchInline` | kitt/artifacts/store.py:221-237 | the loop over a whole text returns the reference hits: those at the disjoint complete offsets, each with the excerpt `HitsShowContext` describes |
| `TextSearch.WindowFind` | kitt/artifacts/store.py:266-267 | searching a window of the text finds what searching the text finds, up to what the window can see |
| `TextSearch.ScanWindow` | kitt/artifacts/store.py:266-283 | the inner loop over a window computes the scan that `ScanEmitsNextHits` describes, for any folding |
| `TextSearch.ScanEmitsNextHits` | kitt/artifacts/store.py:266-283 | one pass over the window emits exactly the next hits of the text, with the excerpts the whole text gives, up to the safe end |
| `TextSearch.TrimKeepsWindow` | kitt/artifacts/store.py:288-291 | the trimmed window still reaches back far enough to give every later hit its left context |
| `TextSearch.ReadAndScan` | kitt/artifacts/store.py:259-291 | one round leaves the hits of the remaining reads unchanged and a window of at most two contexts and a needle |
| `TextSearch.SearchFile` | kitt/artifacts/store.py:250-293 | the rolling window, for any folding and any way of cutting the stream, gives the hits `FileHits` defines and never holds more than a read plus two contexts plus the needle |
| `TextSearch.FileHitsAreHits` | kitt/artifacts/store.py:250-293 | from every state the loop can be in, the hits of the remaining reads complete those of the whole text, when no character folds to nothing and those that can be trimmed away fold to one |
| `TextSearch.FileSearchIsTextSearch` | kitt/artifacts/store.py:250-293 | so the rolling window over any reads is the search of the whole text under that condition: all but the last two contexts and a needle of the text fold one to one |
| `TextSearch.SearchText` | kitt/artifacts/store.py:206-293 | under the clamped limit and context an INLINE text gives the reference hits of the text, a FILE gives those of its rolling window, which are the reference hits when what can be trimmed away folds one to one; an empty query gives none; memory is bounded; what a reference hit shows is `HitsShowContext` |
| `TextSearch.KindsAgreeIff` | kitt/artifacts/store.py:256-256 | INLINE and FILE storage show the search the same text if and only if it has no carriage return |
| `TextSearch.NewlinesConcat` | kitt/artifacts/store.py:256-256 | text mode rewrites a text piece by piece, unless a line end is torn apart |
| `TextSearch.LineEndsBecomeNewlines` | kitt/artifacts/store.py:256-256 | both kinds of carriage return become a newline; text without one stays |
| `TextSearch.CarriageReturnMovesMatch` | kitt/artifacts/store.py:256-256 | a text on which the two storage kinds report different offsets |
| `TextSearch.ExpandingFoldMovesMatchIff` | kitt/artifacts/store.py:257-291 | for every text of a character that folds to two, any number of others and the needle, in one read: the FILE and the INLINE search agree if and only if the first character cannot be trimmed away, else the FILE search reports one offset less |
| `PathScopes.PathStrInjective` | kitt/children/context.py:16-16 | different paths have different strings, so the sort key tells paths apart |
| `PathScopes.PathStrSplits` | kitt/children/context.py:16-16 | the string of a path is its components, each after a slash |
| `PathScopes.PathLtStrictTotal` | kitt/children/context.py:16-16 | sorting by depth and string is a strict total order of paths |
| `PathScopes.CanonicalOrder` | kitt/children/context.py:15-22 | a canonical scope lists shallower paths first, and those of one depth in lexicographic order of their strings |
| `PathScopes.DedupeScopes` | kitt/children/context.py:15-22 | the result is a sorted antichain of given paths that covers the same paths |
| `PathScopes.CanonicalFormIsUnique` | kitt/children/context.py:15-22 | two canonical scopes that cover the same paths are the identical list |
| `PathScopes.SameInsideSameList` | kitt/children/context.py:15-33 | two canonical relative scopes that permit the same paths are the identical list |
| `PathScopes.ValidateChildPaths` | kitt/children/context.py:25-33 | fails exactly when a target is outside the root, else returns the canonical list that permits exactly what was asked |
| `PathScopes.Intersections` | kitt/children/context.py:67-73 | the collected paths cover exactly what both scopes cover |
| `PathScopes.NarrowChildPaths` | kitt/children/context.py:36-78 | escapes, refusals and results are exactly as specified: refused exactly when the intersection is empty, else the canonical scope that permits exactly the intersection |
| `PathScopes.NarrowUnbounded` | kitt/children/context.py:54-58 | without a parent the scope covers the request, and asking for the root gives the empty, unrestricted scope |
| `PathScopes.EqualCoversNarrowAlike` | kitt/children/context.py:36-78 | requests and parents that cover the same paths are narrowed to the identical result |
| `PathScopes.NarrowingIsIntersection` | kitt/children/context.py:36-78 | a child may touch a path if and only if its parent may and it asked for it; an empty request inherits |
| `PathScopes.ParentBindsIffNonEmpty` | kitt/children/context.py:60-65 | the parent scope binds the child if and only if it is not empty |
| `PathScopes.ChainNeverWidens` | kitt/children/lifecycle.py:492-494 | along any chain of agents no level may touch a path that an ancestor may not |
| `DependencyGraph.TopologicalHasNoCycle` | kitt/backend_ir/service.py:108-128 | a graph all of whose nodes are in a topological order has no cycle |
| `DependencyGraph.StackClosesCycle` | kitt/backend_ir/service.py:115-119 | a node of the current walk that is met again lies on a cycle |
| `DependencyGraph.CycleCheck.Walk` | kitt/backend_ir/service.py:112-124 | the walk ends; afterwards the node is finished or a cycle was reported; without a report the finish order is topological |
| `DependencyGraph.CycleCheck.WalkDependencies` | kitt/backend_ir/service.py:121-122 | the walk over the dependencies finishes all of them or reports a cycle |
| `DependencyGraph.CycleCheck.FinishNode` | kitt/backend_ir/service.py:123-124 | finishing a node after its dependencies keeps the finish order topological |
| `DependencyGraph.CycleCheck.CheckAll` | kitt/backend_ir/service.py:126-127 | a cycle is reported if and only if there is one, each reported node lies on one and is reported once; otherwise the finish order is a topological order of all nodes |
| `BackendIr.ByIdKeys` | kitt/backend_ir/service.py:53-66 | the index holds exactly the ids of the well-named resources |
| `BackendIr.ByIdHoldsLast` | kitt/backend_ir/service.py:53-66 | under each id the index holds the last resource that has it |
| `BackendIr.StripSplits` | kitt/backend_ir/service.py:38-38 | stripping takes away white space at both ends and nothing else |
| `BackendIr.IsSpaceIff` | kitt/backend_ir/service.py:38-38 | the white space is what `str.strip` takes away |
| `BackendIr.ScanItem` | kitt/backend_ir/service.py:54-88 | exactly which issues a resource gives: not an object, an id that stripped is not 1 to 256 characters, an id seen before, an unknown kind, a spec that is no object or has faults |
| `BackendIr.ScanItems` | kitt/backend_ir/service.py:53-88 | the issues are exactly those of the single resources; none exactly when all are clean and their ids distinct; the index is the last resource under each id |
| `BackendIr.ScanDeps` | kitt/backend_ir/service.py:97-106 | exactly which issues the dependencies of a resource give: no array, the resource itself, or an unknown one |
| `BackendIr.BuildGraph` | kitt/backend_ir/service.py:90-106 | dies exactly on a truthy non-object spec; else reports exactly the issues of all dependencies and gives the graph among known resources |
| `BackendIr.Header` | kitt/backend_ir/service.py:38-51 | exactly which issues the header gives: an id that stripped is not 1 to 128 characters, a negative or unreadable revision, resources that are no array or too many |
| `BackendIr.WindowIsPrefix` | kitt/backend_ir/service.py:53-54 | only the first resources up to the maximum are looked at |
| `BackendIr.CycleIssues` | kitt/backend_ir/service.py:108-128 | reports a cycle exactly when the graph has one, and only nodes on cycles |
| `BackendIr.Validate` | kitt/backend_ir/service.py:34-128 | reports exactly the issues due in the header, the resources looked at and their dependencies, and nodes on cycles if and only if there is a cycle, whatever else is wrong; no issue if and only if the module is well formed; exactly when it dies |
| `BackendIr.PlanRebuildsModule` | kitt/backend_ir/service.py:138-170 | applying a plan to what it was planned against gives the planned resources |
| `BackendIr.PlanTouchesWhatDiffers` | kitt/backend_ir/service.py:150-170 | a plan names each id that differs exactly once, in order, and no other |
| `BackendIr.TableHoldsLast` | kitt/backend_ir/service.py:138-147 | a plan compares the last resource under each id that is not empty |
| `BackendIr.PlanOperations` | kitt/backend_ir/service.py:150-170 | every operation is an add exactly when only the new module has the id, a remove exactly when only the old one had it, a replace exactly when both do and differ, with the new value |
| `BackendIr.PlanIsNeverRefused` | kitt/backend_ir/service.py:150-170 | a plan rebuilds the module also on a store that refuses to add what is there or to remove or replace what is not |
| `BackendIr.NothingToDo` | kitt/backend_ir/service.py:150-170 | planning a module against itself gives no operation |
| `BackendIr.BackendService.Plan` | kitt/backend_ir/service.py:130-177 | raises where validation dies and rejects every other malformed module with its issues at its own revision; for a well-formed one the difference from the stored snapshot at its revision, whose operations are as `PlanOperations` says, raising exactly on null resources |
| `BackendIr.BackendService.Accept` | kitt/backend_ir/service.py:179-189 | stores a well-formed module under the next revision; anything else changes nothing |
| `BackendIr.ReplayRebuildsSnapshots` | kitt/backend_ir/service.py:130-189 | over every history of accepts, there is a change set for each accepted module if and only if none had null resources, and replaying them from nothing then rebuilds the stored resources |
| `BackendIr.RevisionCountsAccepts` | kitt/backend_ir/service.py:179-189 | over every history of accepts, a module is stored exactly when one was accepted and its revision counts the accepts |
| `BackendIr.AcceptThenPlanIsEmpty` | kitt/backend_ir/service.py:130-189 | after accepting a module, planning it again finds nothing to do, or raises when its resources are null |
| `BackendIr.WellFormedDoesNotCrash` | kitt/backend_ir/service.py:90-93 | a well-formed module never makes validation die |
| `BackendIr.ScalarSpecCrashes` | kitt/backend_ir/service.py:90-93 | a module on which validation dies |
| `BackendIr.NullResourcesAreWellFormed` | kitt/backend_ir/service.py:47-51 | a module without a resource list passes validation |
| `ChildLifecycle.WorkerKeeps` | kitt/children/lifecycle.py:612-790 | no event of a worker thread, however late, breaks the ownership of the child by at most one job |
| `ChildLifecycle.ApprovedKeeps` | kitt/children/lifecycle.py:992-1056 | neither does an approved action, for the current or for an old turn |
| `ChildLifecycle.CallerKeeps` | kitt/children/lifecycle.py:836-990 | nor any call of the parent: cancel, retain, passivate, revive, assign, resume |
| `ChildLifecycle.StepInv` | kitt/children/lifecycle.py:612-1056 | the ownership invariant is kept by every event |
| `ChildLifecycle.StateIsEnteredIff` | kitt/children/lifecycle.py:612-1056 | for each of the nine states, exactly which event in which situation brings the child into it: a timeout only by the handler of a raised timeout, completion only by an integrated and stored success |
| `ChildLifecycle.CallerIsHeardIff` | kitt/children/lifecycle.py:836-1056 | exactly when a cancel, retain, passivate, revive, assignment, resume or approval has an effect |
| `ChildLifecycle.QueuedWithNewJob` | kitt/children/lifecycle.py:906-1056 | becoming queued submits one new job for the current assignment, a resuming one after a granted approval; only an assignment counts as one |
| `ChildLifecycle.WaitsWithTurn` | kitt/children/lifecycle.py:612-638 | a run that stops for approval waits with a turn later than the one before, a resumed one with its own |
| `ChildLifecycle.ApprovalIsUsedOnce` | kitt/children/lifecycle.py:992-1056 | once an approval has continued its turn, neither it nor a resume for that turn is heard again in any run |
| `ChildLifecycle.TimeoutWasRaised` | kitt/children/lifecycle.py:742-757 | in every run a child that has timed out has a job whose worker raised a timeout and which then failed |
| `ChildLifecycle.JobsMatchState` | kitt/children/lifecycle.py:436-465 | a queued child has exactly one job and it has not started, a running child exactly one and it has, any other child that can still change has none |
| `ChildLifecycle.OutcomeStaysWithAssignment` | kitt/children/lifecycle.py:640-790 | whenever a job changes the child, the job belongs to the current assignment |
| `ChildLifecycle.AbsorbingIsForever` | kitt/children/lifecycle.py:612-949 | in every run a failed, timed-out or cancelled child stays so and gets no more artifacts; one cancelled while queued never runs |
| `ChildLifecycle.CompletionStoresArtifact` | kitt/children/lifecycle.py:640-705 | an event stores an artifact exactly when it makes the child completed |
| `ChildLifecycle.OneArtifactPerCompletion` | kitt/children/lifecycle.py:640-705 | over every run the artifacts stored are as many as the entries into completed |
| `ChildLifecycle.ArtifactsFromSpawn` | kitt/children/lifecycle.py:436-705 | from the spawn, queued or failed by its admission, a child has exactly one artifact for each completion |
| `ChildLifecycle.StepTakesThread` | kitt/children/lifecycle.py:707-719 | only the start of a job takes a pool thread, and it takes one |
| `ChildLifecycle.WorldRunInv` | kitt/children/lifecycle.py:436-465 | the invariant over all children and the pool holds in every run |
| `ChildLifecycle.EveryRunIsSafe` | kitt/children/lifecycle.py:436-1056 | in every run at most one live job per child, pending when it is queued, begun when it is running and absent otherwise; every reusable child has a result artifact, and no more children run than the pool has threads |
| `ChildBudget.ChargeStaysWithin` | kitt/children/lifecycle.py:123-154 | usage within the remaining caps keeps the consumed amounts between their old values and the lease caps; that they are the usage reported is `ConsumedIsReported` |
| `ChildBudget.ExecutingGrant` | kitt/children/worker.py:95-170 | when a turn reports, the caps computed at its start still match the lease, because nothing else changed it |
| `ChildBudget.PayKeepsLease` | kitt/children/lifecycle.py:91-185 | one event leaves consumption monotone and within the caps, and settles amounts between zero and the caps |
| `ChildBudget.GrantsKept` | kitt/children/worker.py:95-170 | every executing job keeps running under the grant of the current lease |
| `ChildBudget.LeaseIsNeverExceeded` | kitt/children/lifecycle.py:91-185 | from its spawn on, with any mix of worker kinds, a leased child's tokens, calls, cost and tools never decrease between two moments and never exceed the lease, nor does any settlement; `ConsumedIsReported` and `SettlesWhatWasReported` say what they are |
| `ChildBudget.ConsumedIsReported` | kitt/children/lifecycle.py:123-185 | from the spawn, over every run: the tokens used are the tokens reported, and what the lease has consumed is the sum of the usage reported until a failure or a cancel exhausts it, its caps from then on |
| `ChildBudget.ReportedStaysWithinLease` | kitt/children/lifecycle.py:123-154 | over every run of a leased child the sum of all the usage its turns report is within the lease |
| `ChildBudget.SettlesWhatWasReported` | kitt/children/lifecycle.py:91-185 | over every run, what a report settles is the sum reported up to and including it; what a failure or a cancel settles is the whole lease |
| `ChildBudget.GrantIsWhatIsLeft` | kitt/children/worker.py:95-170 | over every run, a new turn of a leased child is refused exactly when the tokens or calls reported use up the lease, and else may use what they leave |
| `ChildBudget.TokenBudgetDecides` | kitt/children/lifecycle.py:906-1056 | over every run, a reusable child takes another task, and an approved turn continues rather than fails, if and only if the tokens reported are below the token budget it was spawned with |
| `ChildBudget.RaisedOwns` | kitt/children/lifecycle.py:640-757 | while a completion's exception is on its way only the failure handler or a cancel can move the child |
| `ChildBudget.SettledOnceByFirstEnd` | kitt/children/lifecycle.py:640-757 | over every run, a child whose first end came from its worker was settled at most once by then, and exactly once when the settler works |
| `ChildBudget.SettledOnceFromSpawn` | kitt/children/lifecycle.py:640-757 | from its spawn on: a child whose first end came from its worker was settled at most once by then and exactly once when the settler works, one that ended through an exhausted approval not at all, and before its first end one is settled only with an exception on its way |
| `ChildBudget.SettlesAgainIff` | kitt/children/lifecycle.py:640-863 | from the spawn, at any moment of any run, exactly which events call the settler again: such a cancel, or the report of a further turn of a child whose lease is marked; the failure handler never |
| `ChildBudget.CancelSettlesTwiceIff` | kitt/children/lifecycle.py:836-863 | from the spawn, at any moment of any run: a cancel calls the settler again if and only if the child is not terminal and its lease is marked settled; before the first end that is so only with a failed completion on its way |
| `ChildBudget.CancelSettlesTwice` | kitt/children/lifecycle.py:836-863 | a run from the spawn whose cancel is a second settlement |
| `ChildBudget.RetainedCancelSettlesTwice` | kitt/children/lifecycle.py:836-904 | a run without any failure whose cancel is a second settlement: complete, retain, cancel |
| `ChildBudget.SecondTaskRefused` | kitt/children/worker.py:95-170 | a run of a child without a lease whose second task is refused its grant |
| `ChildBudget.SecondTaskDone` | kitt/children/manager.py:42-83 | with an external backend or an in-process worker for the second task, whoever did the first, there is a run that completes it |
| `ChildBudget.UnleasedCompletions` | kitt/children/worker.py:95-170 | from the spawn, with any mix of workers, at most one of the tasks a child without a lease completes was done by the worker process |
| `ChildBudget.UnleasedSucceedsIff` | kitt/children/worker.py:95-170 | at any moment of any run after the first charge, the executing job can report a success if and only if its worker is not the worker process |
| `ChildBudget.UnleasedCompletesTwoIff` | kitt/children/lifecycle.py:707-740 | with one kind of worker a child without a lease can complete a second task if and only if it is not the worker process |
| `ChildBudget.UnleasedChildCompletesAtMostOnce` | kitt/children/worker.py:95-170 | from its spawn on, in every run, a child without a lease whose work the worker process does stores at most one result |
| `ChildRow.ChildRow.Spawn` | kitt/children/lifecycle.py:436-465 | the row of a new child, admitted or not, is the initial state of the lifecycle and satisfies the lease and settlement invariants |
| `ChildRow.ChildRow.BeginJob` | kitt/children/lifecycle.py:715-719 | starting a job is the start event: a terminal child drops it, any other runs |
| `ChildRow.ChildRow.MarkWaitingApproval` | kitt/children/lifecycle.py:612-638 | is the waiting event, with its charge (`ConsumedIsReported`), its new turn (`WaitsWithTurn`) and its refusal without a turn |
| `ChildRow.ChildRow.CompleteChild` | kitt/children/lifecycle.py:640-705 | is the return event: charge, integration, settlement and artifact in this order, or an exception on its way; the charge is `ConsumedIsReported`, the settlement `SettlesWhatWasReported` |
| `ChildRow.ChildRow.FailChild` | kitt/children/lifecycle.py:742-757 | is the failure event: the final state, and the settlement unless one was made |
| `ChildRow.ChildRow.FinishResumedTurn` | kitt/children/lifecycle.py:766-790 | is the end of a resumed turn, before its action is continued |
| `ChildRow.ChildRow.OnApprovedActionExecuted` | kitt/children/lifecycle.py:992-1056 | is the approval event: a new turn, a failure when the tokens are used up, nothing for an old turn |
| `ChildRow.ChildRow.CancelChild` | kitt/children/lifecycle.py:836-863 | is the cancel event, and says whether the child could still be cancelled |
| `ChildRow.ChildRow.AssignTask` | kitt/children/lifecycle.py:906-949 | is the assignment event, and says whether the task was taken |
| `ChildRow.ChildRow.ResumeWithGrant` | kitt/children/lifecycle.py:951-990 | is the resume event, taken exactly when the grant is for the waiting turn |
| `ChildRow.ChildRow.ContinueAfterResume` | kitt/children/lifecycle.py:776-790 | is the hand-off of a resumed turn to its continuation |
| `ChildRow.ChildRow.Perform` | kitt/children/lifecycle.py:612-1056 | every event of the lifecycle is performed by the method that stands for it |
| `ChildRow.ChildRow.PerformAll` | kitt/children/lifecycle.py:612-1056 | any sequence of these calls is a run of the lifecycle; it keeps a leased child within its lease with consumption that only grows, and keeps the count of settlements |
| `ChildInbox.UndeliveredIsSuffix` | kitt/children/messaging.py:102-115 | when the delivered messages are a prefix, the undelivered ones are the rest in order |
| `ChildInbox.ListInOrderIff` | kitt/children/messaging.py:102-115 | a listing is the next sixteen waiting messages in the order sent if and only if each of those is no later than every waiting one after it |
| `ChildInbox.RunningClockKeepsOrder` | kitt/children/messaging.py:102-115 | send times that never decrease are enough for that |
| `ChildInbox.ListIsFresh` | kitt/children/messaging.py:102-115 | whatever the clock does, a listing holds distinct undelivered messages for the recipient |
| `ChildInbox.ListIsOldest` | kitt/children/messaging.py:102-115 | a waiting message is left out only behind sixteen listed ones, none of them later |
| `ChildInbox.ListIsByTime` | kitt/children/messaging.py:102-115 | a listing has at most sixteen messages, by the time they were sent |
| `ChildInbox.LimitIsClamped` | kitt/children/messaging.py:113-113 | the limit used is the nearest number of 1 to 32 |
| `ChildInbox.ListIsNextSlice` | kitt/children/messaging.py:102-115 | listed in order after a delivered prefix, the pending list is the next sixteen of the inbox |
| `ChildInbox.DeliveredIsAlwaysPrefix` | kitt/children/messaging.py:102-128 | in every run whose listings are in order, also when workers die, the delivered messages are a prefix of the inbox that only grows |
| `ChildInbox.PromptedExactlyOnce` | kitt/children/worker.py:198-219 | in every run whose listings are in order, without a death midway, the prompts together are a prefix of the inbox: each message once, none skipped, in order |
| `ChildInbox.BacklogDrains` | kitt/children/worker.py:198-219 | in such a run whatever is waiting has been prompted after one turn per sixteen messages, no matter how many more arrive |
| `ChildInbox.TurnCompletes` | kitt/children/worker.py:198-219 | from any state an open turn can mark exactly its batch and close, and then, as after a death, another one can open |
| `ChildInbox.ClockStepBackReorders` | kitt/children/messaging.py:102-115 | two messages that a clock stepping back delivers in the wrong order |
| `ChildInbox.MessageTable.SendMessage` | kitt/children/messaging.py:35-76 | appends one undelivered message |
| `ChildInbox.MessageTable.MarkDelivered` | kitt/children/messaging.py:123-128 | marks that message only, and says whether it exists |
| `ChildInbox.MarkAllMarks` | kitt/children/messaging.py:123-128 | marking a batch marks exactly its messages |
| `ChildInbox.MessageTable.DeliverBatch` | kitt/children/worker.py:198-219 | on any table prompts the pending list and leaves exactly those messages marked in addition |
| `ChildInbox.DeliveryExtendsPrefix` | kitt/children/worker.py:198-219 | listed in order after a delivered prefix, a delivery prompts the next sixteen, or all that are left, and the delivered prefix grows by just those |
| `ChildDelivery.OverStays` | kitt/children/lifecycle.py:707-790 | once an exception is on its way or the child has ended, no event gives it another turn |
| `ChildDelivery.DeathEndsChild` | kitt/children/lifecycle.py:544-582 | a worker that exits, times out or raises leaves its child over: its job was the only one |
| `ChildDelivery.DeliveryIsExclusive` | kitt/children/worker.py:198-219 | a turn that may deliver finds no other delivery open and everything prompted so far marked |
| `ChildDelivery.ActionKeepsInv` | kitt/children/lifecycle.py:707-790 | every event of the lifecycle, send, listing and marking keeps that each message was prompted at most once and that only a dead worker left one prompted and unmarked |
| `ChildDelivery.EveryMessageAtMostOnce` | kitt/children/worker.py:198-219 | over the whole life of a child, with approvals, reassignments, cancels and dying workers and whatever the clock does, each message enters at most one prompt, only messages sent to the child do, and none is marked that was not prompted |
| `ChildDelivery.UnmarkedIffWorkerDied` | kitt/children/worker.py:198-219 | over the whole life of a child, with no delivery open, some prompted message is unmarked if and only if a worker died between prompting its messages and marking them |
| `ChildDelivery.DeathStrandsMessage` | kitt/children/lifecycle.py:544-582 | a run that leaves a prompted message unmarked |
| `ChildDelivery.PromptedInOrderIff` | kitt/children/worker.py:198-219 | over the whole life of a child what was prompted is a prefix of the inbox, in the order sent and with none skipped, if and only if every listing was in order |
| `ChildDelivery.DeliveredInOrder` | kitt/children/worker.py:198-219 | then the marked messages are the first ones sent, too |
| `ChildDelivery.NothingDeliveredAfterDeath` | kitt/children/lifecycle.py:544-582 | wherever in its life a child's worker dies, nothing is prompted and nothing is marked afterwards: its unmarked messages stay pending |
| `ContextSelector.RedundancyIsMutual` | kitt/context/candidates.py:41-74 | the redundancy test is symmetric |
| `ContextSelector.RedundantIff` | kitt/context/candidates.py:57-74 | redundant are those with the same hash, with four fifths of the lines of the shorter in common, or with seventeen twentieths of all their terms in common |
| `ContextSelector.OfferKeeps` | kitt/context/candidates.py:88-102 | an offer keeps the budget, the distinct ids and the diversity of the selection |
| `ContextSelector.TurnKeeps` | kitt/context/candidates.py:88-112 | a candidate's turn keeps all that and leaves it selected, or refused for a cause that was there before its turn |
| `ContextSelector.TurnsResolve` | kitt/context/candidates.py:110-129 | every candidate that had a turn is selected at the end or still impossible to add |
| `ContextSelector.SelectionIsSound` | kitt/context/candidates.py:76-131 | the selection costs at most the budget, has distinct ids, comes from the candidates, and no optional one repeats an earlier choice |
| `ContextSelector.SelectionIsMaximal` | kitt/context/candidates.py:76-131 | every candidate whose id is not selected is discarded, and is redundant against the final selection or too costly for what is left |
| `ContextSelector.SelectionIsDiverse` | kitt/context/candidates.py:57-74 | any two selected optional candidates are mutually non-redundant |
| `ContextSelector.RefusedBehindBetter` | kitt/context/candidates.py:114-129 | an optional candidate is refused only because of mandatory candidates and of optional ones with a key no worse than its own, for any total order of keys; `NoWorseIff` says which the code uses |
| `ContextSelector.NoWorseIff` | kitt/context/candidates.py:119-125 | the key puts first more of six parts relevance, three confidence and one freshness per token, and more of it among those with as much, written without division |
| `ContextSelector.QueueIsByWorth` | kitt/context/candidates.py:114-125 | any two optional candidates queue in that order |
| `ContextSelector.QueueKeepsTies` | kitt/context/candidates.py:114-125 | those with the same key queue in the order given |
| `ContextSelector.DensestIsSelected` | kitt/context/candidates.py:114-129 | an optional candidate with more value per token than any other is selected whenever the mandatory ones leave room for it |
| `ContextSelector.DenserOfTwo` | kitt/context/candidates.py:114-129 | of two optional candidates that fit one at a time the one of more value per token is selected and the other is not |
| `ContextSelector.DependenciesFollow` | kitt/context/candidates.py:104-112 | when the turn of a selected candidate is over, each of its direct dependencies is selected or was refused |
| `ContextSelector.ByIdHoldsLast` | kitt/context/candidates.py:86-86 | a dependency is looked up as the last candidate with its id |
| `ContextSelector.MandatoryKeepsOrder` | kitt/context/candidates.py:110-112 | mandatory candidates have their turns in the order given |
| `ContextSelector.MandatorySurvive` | kitt/context/candidates.py:110-112 | mandatory candidates without dependencies that fit the budget together are all selected |
| `ContextSelector.Selection.CheckRedundant` | kitt/context/candidates.py:57-74 | true exactly when some selected candidate makes this one redundant |
| `ContextSelector.Selection.TryAdd` | kitt/context/candidates.py:88-102 | is one offer, and says whether the id is selected |
| `ContextSelector.Selection.AddDependencies` | kitt/context/candidates.py:104-108 | offers the direct dependencies in order |
| `ContextSelector.AddMandatory` | kitt/context/candidates.py:110-112 | gives every mandatory candidate its turn |
| `ContextSelector.QueueUp` | kitt/context/candidates.py:114-125 | the optional candidates not yet selected, sorted stably by the key; `QueueIsByWorth` and `QueueKeepsTies` say what that order is |
| `ContextSelector.SelectCandidates` | kitt/context/candidates.py:76-131 | is the selection the lemmas above describe, in the order `QueueIsByWorth` gives, within the budget |
| `ExplicitFiles.TokensAreConserved` | kitt/context/retrieval.py:289-321 | estimates given out and tokens left always add up to the budget |
| `ExplicitFiles.ShareLasts` | kitt/context/retrieval.py:295-321 | a share the budget affords for every request is still offered to each later one |
| `ExplicitFiles.SharesAreFair` | kitt/context/retrieval.py:295-296 | with a token per request every request is offered at least an even share |
| `ExplicitFiles.AllServedIffEnough` | kitt/context/retrieval.py:292-321 | the files served are the smaller of the readable files and the budget, so all are served if and only if there is a token for each |
| `ExplicitFiles.CandidatesAreExplicit` | kitt/context/retrieval.py:322-341 | every candidate is mandatory, without dependencies, and names a requested readable file |
| `ExplicitFiles.CandidateShowsFile` | kitt/context/retrieval.py:297-341 | a complete file of at most four characters a token is shown whole; any other as a beginning and the note that it was cut, as long as four characters a token allow, or as the note alone; with all other fields |
| `ExplicitFiles.EstimateIsQuarter` | kitt/context/retrieval.py:319-320 | the estimate is a quarter of the length, at least one and at most the share |
| `ExplicitFiles.ServedInOrder` | kitt/context/retrieval.py:292-321 | files are served in the order requested, none passed over while there are tokens |
| `ExplicitFiles.ExplicitPathCandidates` | kitt/context/retrieval.py:286-342 | is the loop those lemmas describe, with estimates that fit the budget |
| `RankFusion.FirstEvidenceIsFirst` | kitt/context/rag/fusion.py:79-86 | the representative found is the first that is the same evidence |
| `RankFusion.SameEvidenceIff` | kitt/context/rag/fusion.py:40-43 | the same evidence are those with the same hash or with thirteen twentieths of the lines of the shorter in common |
| `RankFusion.IdentityIff` | kitt/context/rag/fusion.py:18-21 | candidates share a key when they are at the same place, or have the same id and no place |
| `RankFusion.SupersedesIff` | kitt/context/rag/fusion.py:46-61 | a fuller representation supersedes, and otherwise a longer content of at most twice the tokens |
| `RankFusion.MergeTakesBest` | kitt/context/rag/fusion.py:57-76 | merging takes what is shown from one of the two, the better of each score, mandatory if either is, and the dependencies of both without repetition, the first one's before the others |
| `RankFusion.UsableSplits` | kitt/context/rag/fusion.py:110-113 | sources keep their order, and one without a usable weight gives nothing |
| `RankFusion.AbsorbKept` | kitt/context/rag/fusion.py:115-124 | a candidate that does not supersede its requested file leaves every requested file in place |
| `RankFusion.AbsorbLoses` | kitt/context/rag/fusion.py:57-76 | a candidate that supersedes a requested file removes its id from the representatives |
| `RankFusion.TwinsLoseOne` | kitt/context/rag/fusion.py:40-43 | of requested files two of which have the same content hash, one id is lost while they are absorbed |
| `RankFusion.SomeFileIsLost` | kitt/context/rag/fusion.py:95-134 | two files with the same hash, or a first claimant that supersedes one, lose some file's id for good |
| `RankFusion.FilesSurviveFusionIff` | kitt/context/rag/fusion.py:95-134 | all requested files are still there after fusion if and only if no two have the same content hash and no source's first claimant of one supersedes it |
| `RankFusion.RerankingTakesNothing` | kitt/context/rag/semantic.py:178-195 | a semantic source drawn from the optional results of the first fusion never takes over a requested file in the second |
| `RankFusion.ResolveSlot` | kitt/context/rag/fusion.py:79-86 | finds the representative a candidate belongs to |
| `RankFusion.FuseSource` | kitt/context/rag/fusion.py:114-124 | absorbs each key of a source once, in order |
| `RankFusion.FuseSources` | kitt/context/rag/fusion.py:95-126 | is the fusion those lemmas describe, over the sources with a usable weight |
| `ContextRetrieval.KeptFilesAreSelected` | kitt/context/retrieval.py:260-263 | a requested file that fusion keeps is never discarded by the selector |
| `ContextRetrieval.LostIsNotSelected` | kitt/context/retrieval.py:260-263 | an id that fusion lost cannot be selected |
| `ContextRetrieval.ExplicitFilesSurviveIff` | kitt/context/retrieval.py:240-263 | from the budget loop through fusion, semantic reranking and fusion again to the selector under one budget, every served file is selected if and only if no two have the same content hash and no source's first claimant of one supersedes it |
| `ContextRetrieval.SymbolDisplacesFile` | kitt/context/rag/fusion.py:57-76 | in any workspace a requested file that is served truncated within the budget, and an indexed symbol in it that costs more than the budget, leave the selection empty |
| `ContextRetrieval.SymbolDisplacesLongFile` | kitt/context/retrieval.py:286-380 | a workspace, a budget of ten and a symbol of four hundred characters on which the whole pipeline does this |
| `ContextRetrieval.TwinFilesMerge` | kitt/context/rag/fusion.py:40-43 | when any two of the served files have the same content hash, with any sources, not all are selected |
| `ContextRetrieval.TwinFilesAreServed` | kitt/context/retrieval.py:286-342 | two readable files with the same content and a token for each are served with the same hash |
| `ContextEnvelope.SearchCutFits` | kitt/context/envelope.py:54-61 | the binary search ends at a prefix that fits |
| `ContextEnvelope.SearchCutIsLongest` | kitt/context/envelope.py:54-61 | when longer prefixes never cost less, no longer prefix fits |
| `ContextEnvelope.TruncateBody` | kitt/context/envelope.py:45-64 | the result fits the budget and the last error is unreachable |
| `ContextEnvelope.TruncationIsLongest` | kitt/context/envelope.py:45-64 | the result is the body or a prefix of its text with the other entries kept, and the longest that fits when cost is monotone |
| `ContextEnvelope.FitThinsWithinBudget` | kitt/context/envelope.py:122-155 | a successful build is the sorted segments in order, less optional ones that exceed what is left, with only required ones cut, and all but the user's intent within the budget |
| `ContextEnvelope.ThinnedKeeps` | kitt/context/envelope.py:124-155 | the user's intent is present unchanged, a required segment whole or cut, an optional one unless it exceeds what is left |
| `ContextEnvelope.AtMostOneCut` | kitt/context/envelope.py:134-154 | when every body costs a token, at most one position of the output is a cut, and after it nothing is left |
| `ContextEnvelope.FitFailsIff` | kitt/context/envelope.py:45-64 | a build fails if and only if a required segment's turn comes with too little left even for its metadata, or for a body that cannot be cut |
| `ContextEnvelope.FailureSaysWhy` | kitt/context/envelope.py:45-64 | a failed build is stuck at a segment of priority 90 or more and names the cause: a body that cannot be cut, or metadata that alone exceed what is left |
| `ContextEnvelope.PriorityDecides` | kitt/context/envelope.py:122-155 | missing from a build is never the user's intent, never a segment of priority 90 or more, which is there at least cut, and another only if it exceeds what is left |
| `ContextEnvelope.CutIsPrefix` | kitt/context/envelope.py:134-154 | a cut segment has a prefix of the text, marked as truncated, all other fields as they were and the cost of what is left |
| `ContextEnvelope.EnvelopeOrder` | kitt/context/envelope.py:116-120 | segments come by region, frozen prefix, session prefix, live zone, uncached, then by falling priority, then by id |
| `ContextEnvelope.KeyLeIsPreorder` | kitt/context/envelope.py:117-120 | the sort key is a total preorder |
| `ContextEnvelope.ContextEnvelopeBuilder.Add` | kitt/context/envelope.py:75-114 | appends one segment priced by its own body; a missing or blank body appends nothing |
| `ContextEnvelope.ContextEnvelopeBuilder.Build` | kitt/context/envelope.py:116-156 | without a budget the sorted segments, with one the fitting above or its error, within the budget |
| `ContextEnvelope.FitAll` | kitt/context/envelope.py:122-155 | the loop computes the fitting the lemmas describe |
| `ContextEnvelope.BuiltEnvelope` | kitt/context/envelope.py:116-156 | from any added segments: sorted, within budget, every user intent unchanged, every required segment present whole or cut, and at most one cut when every body costs a token |
| `ContextCache.RunUnique` | kitt/context/cache.py:57-70 | in every run a key is held once and the cache never exceeds its size |
| `ContextCache.StepTracksIff` | kitt/context/cache.py:43-74 | one operation keeps the cache the top of the stack if and only if it does not ask for an evicted key |
| `ContextCache.TracksThroughoutIff` | kitt/context/cache.py:43-74 | throughout a run the cache is the top of the unbounded recency stack if and only if no get asks for an evicted key |
| `ContextCache.EvictedGetDiverges` | kitt/context/cache.py:51-55 | after any run, asking for an evicted key leaves the cache behind the stack |
| `ContextCache.EvictedGetIsReachable` | kitt/context/cache.py:57-70 | two puts into a cache of one reach such a state |
| `ContextCache.CacheIsTopOfHeard` | kitt/context/cache.py:43-74 | in every run the cache is the top of the stack that only hits and puts touch |
| `ContextCache.StackHoldsLatest` | kitt/context/cache.py:57-74 | the stack holds exactly the values last put since the last clear |
| `ContextCache.HitIsLatest` | kitt/context/cache.py:43-55 | a hit returns the value last put under its key since the last clear |
| `ContextCache.HeldIff` | kitt/context/cache.py:43-74 | least recently used: after any run a key is held if and only if it was put since the last clear and fewer than the maximum of other keys were put, or got with a hit, since its own last use |
| `ContextCache.PutIsHeld` | kitt/context/cache.py:57-70 | what was just put is there |
| `ContextCache.LargerCacheIncludes` | kitt/context/cache.py:43-74 | on the same operations a larger cache's recency list contains the smaller one's as a subsequence |
| `ContextCache.LargerCacheHits` | kitt/context/cache.py:43-55 | so it hits wherever the smaller one does, with the same value |
| `ContextCache.ContextCache.Get` | kitt/context/cache.py:43-55 | returns the stored value and makes it the most recent; a miss changes nothing |
| `ContextCache.ContextCache.Put` | kitt/context/cache.py:57-70 | makes the entry the most recent and evicts the oldest beyond the size |
| `ContextCache.ContextCache.Clear` | kitt/context/cache.py:72-74 | empties the cache |
| `PlanDepth.DepthIsLongestChain` | kitt/cli/operations.py:362-371 | a depth is the length of some dependency chain and no chain is longer |
| `PlanDepth.NoDepthIffDoomed` | kitt/cli/operations.py:362-371 | a task has no depth if and only if it depends, directly or not, on a cycle or on a missing task |
| `PlanDepth.SettleReady` | kitt/cli/operations.py:369-371 | settling the ready tasks removes them and keeps every depth one more than the largest it depends on |
| `PlanDepth.ComputeDepths` | kitt/cli/operations.py:362-371 | the loop ends on every plan with depths of at most the number of tasks; with distinct ids it ends layered and with nothing more ready |
| `PlanDepth.DecompositionDepth` | kitt/cli/operations.py:374-374 | the reported depth is at most the number of tasks; with distinct ids it is the longest chain among the tasks that have a depth |

## Left out

- TextSearch.SearchText: that a FILE gives the hits of its whole text is claimed when what can be trimmed away folds one to one; which other texts and queries still agree by chance is not characterised, and that two texts which differ only in carriage returns give different hits is shown by example.
- BlobProtocol.QuiescentStoreIsWhole: does not say that no blob is left without a row; a put that fails or a process that dies may leave one.
- PlanDepth.ComputeDepths: with repeated task ids only that the loop ends and the bound on the depths are stated; `kitt/goals/contract.py` refuses plans with repeated ids.
- ChildBudget.LeaseIsNeverExceeded: assumes a worker process reports usage within the caps computed for it; other workers report none.
- ContextRetrieval.ExplicitFilesSurviveIff: stated for requests of different files, while one file under two spellings would be served twice, and for sources whose ids are their own and whose locations match a file's only as evidence.
- BlobProtocol.ReadsBackWhatWasPut: `read_page` and `search_text`, which open the blob the same way, are not modelled as two steps.
- `ChildAgentManager.ask`, which runs a second worker outside the queue, `shutdown_all` and process control.
- Admission limits of `spawn` other than their outcome, security contexts, leases of the coordinator, event callbacks.
- Scores and order of optional candidates in rank fusion and semantic reranking, and the producers of candidates.
- The rest of the artifact store: paging, listing, ownership checks, and the integrity check of a search.
- SHA-256, SQLite, JSON, regular expressions, symbolic links and path resolution, the real token counter.
- Specification details are a count of faults.
- A message's conversation and recipient are one recipient; message kinds, correlation and broadcast.
- Rendering an envelope to text, and the code generators behind `compile`.
- The command line, the terminal interface, the protocol server, virtual machines, containers and the laboratory modules.
