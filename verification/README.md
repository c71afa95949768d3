# A verified model of the browser core, data-directory migration and extension runtime

The project models the parts of the repository whose correctness depends on order, interleaving, failure or
exact bounds, and proves what those parts promise. Each module follows one source file or one concern of it.

| area | files | what it models |
|---|---|---|
| snapshot authority | `SnapshotStore`, `SnapshotAuthority`, `SnapshotRuns`, `SnapshotLife`, `BrowserSession`, `SnapshotPaging`, `SnapshotContinuation`, `JsonSize` | the bounded store of page observations, refs and frame epochs under navigation and frame events that interleave with a scan, continuation pages between which anything may happen |
| action gate | `ActionGate` | `execute`: one action at a time, interruption, recovery, poisoning |
| semantic page tree | `SemanticRegistry`, `SemanticParents`, `SemanticFusion`, `SemanticCollision`, `Forest`, `SemanticTree`, `SemanticCycles`, `SemanticSerializer`, `SemanticShown`, `SemanticBudget` | fusing DOM, layout, accessibility tree and interactive elements; collapsing them to a tree of kept nodes; printing a page of it within a budget, also when merged trees of several frames repeat node ids |
| data directory | `FileSystem`, `DataDir` | the migration over a file system in which any call may fail |
| CDP helper | `NetworkLog`, `NetworkStory`, `NetworkDiagnostics`, `DragGesture` | the network ring buffer with its index of unfinished requests; the drag protocol with its clean-up |
| text and lists | `Utf16`, `FilePathTag`, `Utf8Budget`, `PaintOrder`, `Redaction`, `StableSort`, `Prelude` | the `<filepath>` tag, cutting text to UTF-8 budgets, occlusion by paint order, credential redaction |
| extension runtime | `ResolveExtensions`, `AssemblyRegistry` | the load list of a profile; the registry and the assembly of a turn |

How source forms are kept: objects that are updated in place are classes (`BrowserSession.Session`,
`SnapshotPaging.Snapshot`, `SnapshotPaging.EditableQuery`, `CanonicalNodeRegistry`, `PageWriter`, `FileSystem`,
`NetworkDiagnostics.Diagnostics`, `DragGesture.Gesture`, `AssemblyRegistry.Registry`), the JSON tree that redaction rewrites is an array of
containers, and loops are loops. Each method is proved against a function of the old state; what the source
promises is then proved about those functions, over all inputs or all runs. Awaits are either steps of a
transition system (`SnapshotAuthority.Step`, `ActionGate.Step`) or points at which arbitrary other calls run
(`AssemblyRegistry.Registry.Yield`, `YieldInInit`); calls that may fail fail whenever the verifier likes
(`FileSystems.FileSystem.Fails`, `DragGesture.Gesture.Attempt`).

## What turned out not to hold as one might state it

- A second run of the data-directory migration changes nothing **unless** one of two checkable conditions holds
  (`DataDir.SecondRunChangesNothing` is an equivalence): the first run could not make its backup and the second
  can (`DataDir.BlockedBackupIsRetried`), or the data lies on another device while the primary path is a link or a
  file. In that second case the copy fails and the clean-up at packages/config/src/data-dir.ts:238-243 removes the
  link or file (`DataDir.FailedCopyRemovesPrimaryLink`).
- The same clean-up can cut the data off without any call failing by chance: when the legacy path led to the data
  through the link at the primary path, neither path leads there after the run (`DataDir.FailedCopyCutsOffData`).
  `DataDir.ReturnedPathLeadsToData` is an equivalence: without failures the returned path leads to the data unless
  the primary path is inaccessible or the run removes that link.
- When `unlinkSync` fails after a successful rename, the data is complete at the primary path and the returned legacy
  path dangles (`DataDir.MigrateLinkTargetIntoPrimary`, `DataDir.MovedAwayDangles`). `ResolveDataDirPair` therefore
  promises under faults that no directory with content is lost, not where the returned path leads.
- On a page whose parents are circular, kept nodes go missing from the tree: exactly those whose parents lead into a
  cycle on which two different kept nodes lie (`SemanticCycles.LostIffCycleIsShared`), as two accessibility nodes that
  list each other as children (`SemanticTree.TwoCycleIsLost`). A kept node alone on its cycle becomes a root.
- Parents can be circular although every source is a tree: a main frame named "ax" gives DOM nodes the keys of
  accessibility nodes without a DOM node (`SemanticCollision.FrameNamedAxMakesCycle`).
- A page that says it is not truncated can lose a target of the page. Counts are kept by node id, and the merged tree
  of several frames (packages/browser-core/src/browser-snapshot.ts:528-543) may repeat ids, as each scan makes its own
  (`main:<id>` without a frame id, `ax:<id>`); the node counted last decides for all its namesakes
  (`SemanticShown.MergedTreeLosesTarget`). `SemanticShown.OpenTargetsAreShown` is an equivalence on every tree: all
  is shown unless a node over an open target is overshadowed by its last namesake.
- A target that is not on the page hides everything below it, allowed targets included; `SemanticSerializer.Open` says so.
- Head and tail of a preview repeat text exactly when some code point lies within both halves of the budget
  (`Utf8Budget.PreviewRepeatsIff`). A budget of at most the text's bytes never repeats (`HeadAndTailDisjoint`), one of
  twice the bytes always does (`AmpleBudgetRepeats`), and one in between need not (`LargerBudgetMayRepeatNothing`).
- An action that outlives the poisoned release of its call can leave `commandSessionId` set
  (`ActionGate.LateActionLeavesSessionId`); the session then admits nothing any more.

## Model

| member | source | states |
|---|---|---|
| SnapshotStore.MatchesIffKeysMeet | packages/browser-core/src/browser-state.ts:283-298 | a frame or session event matches an element exactly when the two identities share an epoch key |
| SnapshotStore.Oldest | packages/browser-core/src/browser-state.ts:154-164 | the entry that is evicted is the first one of minimal access time |
| SnapshotStore.PutKeeps | packages/browser-core/src/browser-state.ts:147-153 | storing keeps ids distinct, keeps every other entry, and adds the new one |
| SnapshotStore.EvictOne | packages/browser-core/src/browser-state.ts:154-164 | of four entries exactly one leaves, it was used no later than the rest, and it is not the one just stored |
| SnapshotStore.StoreKeepsRecent | packages/browser-core/src/browser-state.ts:147-166 | one call, when no entry was used after `now`: at most three entries, the new one among them and none expired; at most one live entry lost, only when the store is full without it, and none kept that was used before it |
| SnapshotAuthority.CurrentIffSurvives | packages/browser-core/src/browser-state.ts:207-221 | comparing epochs with the captured ones says exactly whether an event has revoked the element since the inspect began |
| SnapshotAuthority.EvictMembers | packages/browser-core/src/browser-state.ts:154-164 | eviction ends within the bound and only drops entries |
| SnapshotRuns.RunKeepsInv | packages/browser-core/src/browser-snapshot.ts:111-165 | in every reachable state each stored snapshot holds exactly the scanned elements no event has revoked since its inspect began |
| SnapshotRuns.GenerationCheckIsExact | packages/browser-core/src/browser-snapshot.ts:296-302 | the captured generation is still current exactly when no main-document navigation came in between |
| SnapshotRuns.RefsOutliveNothing | packages/browser-core/src/browser-state.ts:186-256 | under every interleaving a ref resolves only to an element whose inspect began after the last invalidation of its document, frame or session |
| SnapshotRuns.RefResolvesIffLive | packages/browser-core/src/browser-state.ts:186-200 | a ref resolves exactly when an unexpired stored snapshot scanned it and nothing has revoked it |
| SnapshotRuns.LatestIsStored | packages/browser-core/src/browser-state.ts:300-319 | the latest snapshot is absent exactly when nothing is stored, otherwise it is a member of the store, which holds at most three; which member it is say `SnapshotLife.PublishedIsLatest` and `SnapshotLife.LatestStaysWhileStored` |
| SnapshotRuns.OpenSnapshotsAreFrozen | packages/browser-core/src/browser-state.ts:224-272 | in every reachable state a snapshot that is still open for continuation holds exactly the elements some inspect published it with |
| SnapshotRuns.UsedInThePast | packages/browser-core/src/browser-state.ts:147-184 | after any run no stored snapshot was used later than the last moment of the run |
| SnapshotRuns.CommitDropsLeastRecentlyUsed | packages/browser-core/src/browser-state.ts:147-166 | in every run whose clock does not go back, an inspect that publishes keeps its snapshot in a store that holds nothing expired, and at most one unexpired snapshot leaves, only when the store is full without it, used no later than any that stays |
| SnapshotLife.PublishesIff | packages/browser-core/src/browser-snapshot.ts:111-165 | an inspect publishes exactly when it has scanned, has not ended, and no navigation has come since it began; it publishes what its scan returned last |
| SnapshotLife.StoredUnlessExpired | packages/browser-core/src/browser-state.ts:168-272 | in every run, an event other than a navigation or a publishing inspect leaves exactly the snapshots that are unexpired if it is a lookup, and all of them otherwise; the one that is looked up is stamped, frame events take the elements they match, and nothing but the loss of an element or a mutation closes a snapshot |
| SnapshotLife.StoredIsPublished | packages/browser-core/src/browser-state.ts:224-272 | every stored snapshot was published by an inspect that was still current, holds what its scan returned without what frame events took since it began, and is closed exactly when the page was mutated or one of its elements' frames went away since it was published |
| SnapshotLife.AvailableIff | packages/browser-core/src/browser-state.ts:168-184 | a snapshot is found for continuation exactly when it is stored, unexpired and open |
| SnapshotLife.ResolvesToLastStored | packages/browser-core/src/browser-state.ts:186-200 | a ref leads to its first element in the last of the stored, unexpired snapshots that hold it |
| SnapshotLife.PublishedIsLatest | packages/browser-core/src/browser-state.ts:147-166 | when the clock does not go back, an inspect that publishes becomes the latest observation |
| SnapshotLife.LatestStaysWhileStored | packages/browser-core/src/browser-state.ts:313-319 | any other event leaves the latest observation as it is while it is stored; otherwise the one stored last takes its place, if any |
| BrowserSession.EvictLeastRecentlyUsed | packages/browser-core/src/browser-state.ts:154-164 | the loop over snapshot objects computes the eviction of the store |
| BrowserSession.PruneStale | packages/browser-core/src/browser-state.ts:300-311 | exactly the expired snapshots and those of other generations are dropped |
| BrowserSession.HolderIndex | packages/browser-core/src/browser-state.ts:186-200 | the last stored snapshot of this generation that holds the ref, or none |
| BrowserSession.Session.StoreBrowserSnapshot | packages/browser-core/src/browser-state.ts:147-166 | prune, put, evict, and the latest snapshot, on the session object; what that means over runs is `SnapshotRuns.CommitDropsLeastRecentlyUsed` and `SnapshotLife.PublishedIsLatest` |
| BrowserSession.Session.GetBrowserSnapshot | packages/browser-core/src/browser-state.ts:168-184 | a lookup prunes, and stamps the snapshot it returns |
| BrowserSession.Session.ResolveSnapshotElement | packages/browser-core/src/browser-state.ts:186-200 | a ref leads to the first element of that ref in the last snapshot that holds it, whose access time is stamped |
| BrowserSession.Session.Prune | packages/browser-core/src/browser-state.ts:300-319 | the session after pruning, with its latest snapshot refreshed as `SnapshotLife.LatestStaysWhileStored` says |
| BrowserSession.Session.CommitInspect | packages/browser-core/src/browser-snapshot.ts:134-165 | what an inspect publishes if its generation is still current; whether it publishes is `SnapshotLife.PublishesIff`, that it is then the latest one `SnapshotLife.PublishedIsLatest` |
| BrowserSession.Session.Invalidate | packages/browser-core/src/browser-action-targets.ts:332-338 | the generation goes up by one; epochs, snapshots and the latest one are gone |
| BrowserSession.Session.InvalidateFrame | packages/browser-core/src/browser-state.ts:224-256 | each key of the identity counts one more event and every snapshot loses exactly the matching elements |
| BrowserSession.Session.InvalidateObservations | packages/browser-core/src/browser-state.ts:263-272 | every stored snapshot, and nothing else, is closed for continuation |
| SnapshotPaging.PageLimit | packages/browser-core/src/browser-snapshot.ts:85-91 | any requested limit becomes a whole number in range, a valid one itself; 100 without one, 200 for anything above |
| SnapshotPaging.PageOffset | packages/browser-core/src/browser-snapshot.ts:84-84 | an offset that is given becomes the whole number below it, so an announced one given back is taken as it is; none or a negative one is 0 |
| SnapshotPaging.BytesOfText | packages/browser-core/src/browser-snapshot.ts:304-350 | the bytes that the search compares are the length of the JSON text of the page, whatever its parts |
| SnapshotPaging.TargetsFitText | packages/browser-core/src/browser-query.ts:287-289 | targets fit exactly when their JSON text does |
| SnapshotPaging.BytesMonotone | packages/browser-core/src/browser-snapshot.ts:304-350 | a longer page takes no fewer bytes, which is what the search relies on |
| SnapshotPaging.LargestIsUnique | packages/browser-core/src/browser-snapshot.ts:238-293 | there is only one largest fitting page, with or without the tree |
| SnapshotPaging.FailsIffNothingFits | packages/browser-core/src/browser-snapshot.ts:238-293 | the page function that the walk follows has no page exactly when not even one element fits |
| SnapshotPaging.Snapshot.SnapshotPage | packages/browser-core/src/browser-snapshot.ts:238-293 | the lower/upper search finds the largest fitting prefix, or fails exactly when not even one element fits; its count is that of the page function of the walk |
| SnapshotPaging.Snapshot.Continue | packages/browser-core/src/browser-snapshot.ts:83-108 | a continuation is refused exactly when its offset is not the announced one |
| SnapshotPaging.EditableQuery.EditablePage | packages/browser-core/src/browser-query.ts:271-314 | the shrinking loop returns the announced number of targets and announces the next offset |
| SnapshotPaging.TargetCountIsLargest | packages/browser-core/src/browser-query.ts:271-314 | no longer editable page would have fitted |
| SnapshotPaging.PagesCoverOnce | packages/browser-core/src/browser-snapshot.ts:83-108 | any advancing sequence of pages visits the offsets in order and each at most once, all of them if it completes |
| SnapshotPaging.InspectCoversOnce | packages/browser-core/src/browser-snapshot.ts:83-108 | of a list that does not change, following `nextOffset` with any limits returns every element once, in order, unless an explicit error ends it |
| SnapshotPaging.EditableNeverBreaks | packages/browser-core/src/browser-query.ts:39-75 | an editable chain never fails on the way |
| SnapshotPaging.EditableCoversOnce | packages/browser-core/src/browser-query.ts:39-75 | of a list that does not change, an editable chain returns everything once, in order, and never fails |
| SnapshotContinuation.ChainIsSessionRun | packages/browser-core/src/browser-snapshot.ts:83-165 | inspects, editable queries, their continuations and everything else that happens between them are runs of the session |
| SnapshotContinuation.EditableListFollows | packages/browser-core/src/browser-state.ts:238-249 | removing a frame's elements from a snapshot and from its editable list keeps the one the list of the other |
| SnapshotContinuation.DeliveredOnceUnderInterference | packages/browser-core/src/browser-snapshot.ts:83-108 | whatever comes between the pages of an inspect or an editable query, what was delivered of a published list is its beginning, each element once, the announced offset is where it ends, and without one it is complete |
| SnapshotContinuation.ContinuationIsStaleOrFromPublished | packages/browser-core/src/browser-query.ts:41-61 | a continuation of either kind is refused as stale, of the wrong kind or mismatched in the order of the checks, and otherwise answered from the list as published |
| SnapshotContinuation.AnnouncedOffsetGetsNextPage | packages/browser-core/src/browser-snapshot.ts:103-108 | at the announced offset the answer is the largest next page of the published list: for an inspect that fits, or the explicit error exactly when none does; for an editable query that fits, or a single target, and never an error |
| SnapshotContinuation.OpenSnapshotIsContinued | packages/browser-core/src/browser-snapshot.ts:94-108 | whatever has happened since: a snapshot that is stored, unexpired and open is answered at its announced offset, for whom it was published, with the next page of the published list |
| SnapshotContinuation.FirstPageIsRecorded | packages/browser-core/src/browser-snapshot.ts:134-165 | the first page begins the list of its kind from what the inspect publishes; an inspect is stale exactly when it does not publish |
| SnapshotContinuation.NextPageIsRecorded | packages/browser-core/src/browser-snapshot.ts:290-293 | a page that is delivered carries on where the pages before it ended, and announces its end exactly while anything is left |
| SnapshotContinuation.OtherListsStay | packages/browser-core/src/browser-snapshot.ts:290-293 | a request changes no list but that of the snapshot it pages through, and that only by a delivered page |
| ActionGate.RunKeepsInv | packages/browser-core/src/browser-core.ts:258-363 | the protocol's invariant holds after every sequence of calls, settlements, aborts, deadlines and navigations |
| ActionGate.AdmissionMeansQuiet | packages/browser-core/src/browser-core.ts:263-288 | a call is admitted only when no earlier start or action promise is still pending and no command field of an earlier call is left; exactly when it is admitted says `ActionGate.AdmittedIff` |
| ActionGate.AdmittedIff | packages/browser-core/src/browser-core.ts:263-288 | in every run a call is admitted exactly when every earlier one is released, none has left the session uncertain, and its own signal and deadline allow it; otherwise the first of these reasons is given |
| ActionGate.UninterruptedCallEnds | packages/browser-core/src/browser-core.ts:312-363 | from every reachable state that admits it, a call whose start and action settle without interruption leaves the session as it found it |
| ActionGate.ThrowingStartEnds | packages/browser-core/src/browser-core.ts:312-336 | a start that throws at once does so too, or holds the gate for recovery if it was an interruption |
| ActionGate.WaitingCallEndsIff | packages/browser-core/src/browser-core.ts:312-336 | in every run, a waiting call is released exactly when its action succeeds or what it waits for fails without interruption or abort, and recovers exactly after an abort or an interruption |
| ActionGate.AbortedCallSettles | packages/browser-core/src/browser-core.ts:321-349 | a call that is aborted while it waits holds the gate until its recovery has been answered |
| ActionGate.SettlingCallEnds | packages/browser-core/src/browser-core.ts:337-362 | then it ends when its start and action have settled, poisoning the session exactly when it was not recovered; until then only the deadline ends it, and always poisons |
| ActionGate.GenerationCounts | packages/browser-core/src/browser-core.ts:251-256 | the generation is the number of navigations and of calls that ended interrupted |
| ActionGate.OneAtATime | packages/browser-core/src/browser-core.ts:355-362 | at most one call holds the session; signal and timeout are set exactly while one does; the session id is unset whenever none does and the session is not poisoned |
| ActionGate.ReleaseClearsFields | packages/browser-core/src/browser-core.ts:355-362 | whichever way a call ends, all three command fields are unset when it releases the session |
| ActionGate.SessionIdIsOfLastAction | packages/browser-core/src/browser-action-targets.ts:65-65 | the session id is only ever set by the pending action of the last call admitted, which holds the session or has left it poisoned |
| ActionGate.LateActionLeavesSessionId | packages/browser-core/src/browser-core.ts:337-362 | a concrete run in which an action outlives its poisoned release and leaves its session id behind |
| ActionGate.PoisonedIffUncertain | packages/browser-core/src/browser-core.ts:337-352 | poisoned exactly when some interruption was not recovered or did not settle |
| ActionGate.PoisonIsFinal | packages/browser-core/src/browser-core.ts:264-268 | a poisoned session stays poisoned and admits nothing, whatever happens |
| ActionGate.InterruptionRaisesGeneration | packages/browser-core/src/browser-core.ts:337-352 | before the gate reopens the generation has gone up past the interruption |
| ActionGate.OrdinaryEndChangesNothing | packages/browser-core/src/browser-core.ts:321-362 | a call that ends without interruption leaves generation and poison alone, and nothing pending |
| SemanticRegistry.CanonicalKeyInjective | packages/browser-core/src/browser-semantic-registry.ts:9-11 | a key determines frame and backend id, whatever characters frame ids hold |
| SemanticRegistry.CanonicalNodeRegistry.EnsureNode | packages/browser-core/src/browser-semantic-registry.ts:19-35 | a new node is listed last and indexed; an old one is left alone; the index stays exact |
| SemanticRegistry.CanonicalNodeRegistry.Resolve | packages/browser-core/src/browser-semantic-registry.ts:37-47 | the index answers like a scan of all nodes: exact frame, else the only one, else the main frame, else none |
| SemanticRegistry.CanonicalNodeRegistry.AddDOMTree | packages/browser-core/src/browser-semantic-registry.ts:49-63 | the DOM phase, index exact; what it registers and where is `SemanticFusion.DomIsRegistered` and `SemanticFusion.DomIsPlaced` |
| SemanticRegistry.CanonicalNodeRegistry.AddSnapshotRecords | packages/browser-core/src/browser-semantic-registry.ts:65-77 | the layout phase, index exact; where its layouts arrive is `SemanticFusion.PageHoldsLayouts` |
| SemanticRegistry.CanonicalNodeRegistry.AddAXTree | packages/browser-core/src/browser-semantic-registry.ts:79-108 | the accessibility phase with its parent links, index exact; where they arrive is `SemanticFusion.PageHoldsAx` and `SemanticFusion.PageHoldsAxParents` |
| SemanticRegistry.CanonicalNodeRegistry.AddInteractiveElements | packages/browser-core/src/browser-semantic-registry.ts:110-125 | the elements phase with semantic sources, index exact; where they arrive is `SemanticFusion.PageHoldsTargets` |
| SemanticFusion.ResolvesToStandsFor | packages/browser-core/src/browser-semantic-registry.ts:37-47 | resolving an id, with the fallback on a key of its own, gives the node of the frame itself, else the only one that carries the id, else the main frame's, else a new one of the frame |
| SemanticFusion.DomIsRegistered | packages/browser-core/src/browser-semantic-registry.ts:49-63 | the DOM phase registers exactly the keys of the tree, whatever keys repeat |
| SemanticFusion.DomIsPlaced | packages/browser-core/src/browser-semantic-registry.ts:49-63 | when its keys are new and distinct, every DOM node, through children, shadow roots and content documents, is held at its own key under the key of the node above it, in document order |
| SemanticFusion.PageHoldsDom | packages/browser-core/src/browser-semantic-registry.ts:49-63 | and is so on the finished page |
| SemanticFusion.PageHoldsLayouts | packages/browser-core/src/browser-semantic-registry.ts:65-77 | on the finished page a node has a layout exactly when a record belongs to it, and then that one |
| SemanticFusion.PageHoldsAx | packages/browser-core/src/browser-semantic-registry.ts:79-96 | a node holds the last accessibility node that belongs to it, by what ids stood for before the phase, on any list of nodes |
| SemanticFusion.PageHoldsAxParents | packages/browser-core/src/browser-semantic-registry.ts:97-108 | its accessibility parent is the last other node that lists it as a child, and none if no other does |
| SemanticFusion.PageHoldsTargets | packages/browser-core/src/browser-semantic-registry.ts:110-125 | a node is the target of the last element at its key, with the semantic source that the last one with a source names |
| SemanticFusion.SourceInFrameIsLinked | packages/browser-core/src/browser-semantic-registry.ts:116-124 | a source that is on the page in the element's own frame is linked |
| SemanticFusion.PageNodesAreNamed | packages/browser-core/src/browser-semantic-registry.ts:19-125 | the nodes of a page are exactly those that one of the four sources names |
| SemanticFusion.NoNodeIsItsOwnParent | packages/browser-core/src/browser-semantic-registry.ts:49-108 | whatever keys repeat, no node of a page is its own parent in either tree |
| SemanticParents.ParentsAreAcyclic | packages/browser-core/src/browser-semantic-tree.ts:405-418 | with unique DOM keys, an accessibility forest, a DOM root that is no accessibility child and no frame key that begins with `ax:`, every parent of a fused node is ranked below it |
| SemanticCollision.FrameNamedAxMakesCycle | packages/browser-core/src/browser-semantic-registry.ts:79-108 | a concrete page of trees with a main frame named `ax`, on which a DOM node and an accessibility node share a key and no rank of parents exists |
| Forest.HeldOnceIffClimbEnds | packages/browser-core/src/browser-semantic-tree.ts:419-425 | for every parent relation: the forest holds a node once if its climb ends, else not at all |
| Forest.HoldsAllOnce | packages/browser-core/src/browser-semantic-tree.ts:419-425 | when every climb ends, the forest is exactly the nodes, each once |
| SemanticTree.RegistryListsNodesOnce | packages/browser-core/src/browser-semantic-tree.ts:345-352 | however its sources overlap, the registry lists every node exactly once; which nodes these are is `SemanticFusion.PageNodesAreNamed` |
| SemanticTree.InteractiveElementsAreKept | packages/browser-core/src/browser-semantic-tree.ts:361-376 | an interactive element is kept exactly when its DOM node is not a text or a comment |
| SemanticTree.PlainNodeIsKeptIff | packages/browser-core/src/browser-semantic-tree.ts:361-402 | a node that is no target is kept exactly when its role, name or state says something, it is neither text, comment, ignored nor hidden, and no element has it for its source; one that only says nothing counts as collapsed |
| SemanticTree.ActionableNodesAreConserved | packages/browser-core/src/browser-semantic-tree.ts:361-402 | the kept targets are all targets of the page but those on text or comments, in order |
| SemanticTree.KeepNodes | packages/browser-core/src/browser-semantic-tree.ts:359-402 | the loop keeps exactly the nodes the keep rules admit and counts the collapsed ones |
| SemanticTree.NearestSemanticParent | packages/browser-core/src/browser-semantic-tree.ts:405-418 | ends on every relation, circular ones included, at the nearest kept ancestor, or finds that there is none |
| SemanticTree.NearestIsUnique | packages/browser-core/src/browser-semantic-tree.ts:405-418 | there is only one nearest kept ancestor |
| SemanticTree.AttachNodes | packages/browser-core/src/browser-semantic-tree.ts:419-425 | every kept node is pushed to its parent's children or to the roots, in order |
| SemanticTree.BuildSemanticPageTree | packages/browser-core/src/browser-semantic-tree.ts:345-441 | roots, children and counts of the tree built from the four sources, whose registry `SemanticFusion` describes |
| SemanticTree.TreeHoldsEveryKeptNodeOnce | packages/browser-core/src/browser-semantic-tree.ts:345-441 | on a page of such sources, no frame key beginning with `ax:`, the tree is exactly the kept nodes, each once, each under its nearest kept ancestor |
| SemanticTree.KeptNodesAreNeverRepeated | packages/browser-core/src/browser-semantic-tree.ts:419-425 | on any page a kept node is in the tree once if its climb ends, else not at all; what that means for the page's parents is `SemanticCycles.LostIffCycleIsShared` |
| SemanticTree.TwoCycleIsLost | packages/browser-core/src/browser-semantic-tree.ts:419-425 | a concrete page on which two kept nodes are missing from the tree |
| SemanticCycles.LostIffCycleIsShared | packages/browser-core/src/browser-semantic-tree.ts:405-425 | on any page a kept node is missing from the tree exactly when its parents lead into a cycle that two different kept nodes lie on |
| SemanticSerializer.PageWriter.SubtreeCounts | packages/browser-core/src/browser-semantic-serializer.ts:36-53 | the recursion returns and records the counts of a subtree |
| SemanticShown.CountsAreOfNodes | packages/browser-core/src/browser-semantic-serializer.ts:36-53 | the counts of a subtree are the numbers of its nodes that hold a target, and one of the page |
| SemanticSerializer.PageWriter.Serialize | packages/browser-core/src/browser-semantic-serializer.ts:79-120 | the recursion with its shared counters prints what the specification prints |
| SemanticSerializer.PageWithinBudget | packages/browser-core/src/browser-semantic-serializer.ts:109-115 | a page holds at most the allowed nodes and bytes of nodes |
| SemanticSerializer.TruncatedIffTooBig | packages/browser-core/src/browser-semantic-serializer.ts:109-115 | truncated exactly when the tree was or the page without a budget would not fit; otherwise the page is that one |
| SemanticBudget.BudgetIsUsed | packages/browser-core/src/browser-semantic-serializer.ts:79-126 | truncated or not, a page prints every root and every child of a printed node that is worth showing as long as what was printed before it leaves room, in order; so each is printed, or the finished page has no room for it |
| SemanticSerializer.PageShowsOnlyOpenTargets | packages/browser-core/src/browser-semantic-serializer.ts:79-126 | only allowed refs, only copies of tree nodes along child edges of the tree, and no target that one off the page hides |
| SemanticSerializer.SerializeSemanticTreePage | packages/browser-core/src/browser-semantic-serializer.ts:55-126 | the entry point with its lower bounds and defaults for the budget; what it prints is `SemanticBudget.BudgetIsUsed` |
| SemanticShown.RecordedIsLast | packages/browser-core/src/browser-semantic-serializer.ts:36-64 | on every tree, what is recorded under an id is the count of the subtree of the last node, in post-order, that has it |
| SemanticShown.RecordedIsOwnIff | packages/browser-core/src/browser-semantic-serializer.ts:36-64 | every node finds the count of its own subtree exactly when nodes of one id hold equally many targets |
| SemanticShown.DistinctAreAlike | packages/browser-core/src/browser-semantic-serializer.ts:36-64 | distinct ids are one such case |
| SemanticShown.OpenTargetsAreShown | packages/browser-core/src/browser-semantic-serializer.ts:79-126 | on every tree: if not truncated, the allowed targets that no target outside the page hides are all shown if and only if no path leads, under no hidden target, to a node over one of them whose last namesake holds no allowed target and either a target outside the page, or no context |
| SemanticShown.OvershadowedByAnother | packages/browser-core/src/browser-semantic-serializer.ts:51-64 | the node that overshadows another is a later namesake that holds fewer targets of the page |
| SemanticShown.AlikeNamesakesLoseNoTarget | packages/browser-core/src/browser-semantic-serializer.ts:79-126 | with alike namesakes, as with distinct ids, and non-empty refs an untruncated page shows exactly the allowed targets that no target outside the page hides |
| SemanticShown.MergedTreeLosesTarget | packages/browser-core/src/browser-snapshot.ts:528-543 | a concrete merged tree of two frames that number a form alike: the page's only target is lost and the page is not truncated |
| SemanticShown.NodesWorthShowingAreShown | packages/browser-core/src/browser-semantic-serializer.ts:79-91 | on every tree: if not truncated, the printed nodes are exactly those that are, lead to, or give context to targets of the page, each counted by its last namesake |
| SemanticShown.AlikeNamesakesShowTheirWorth | packages/browser-core/src/browser-semantic-serializer.ts:79-91 | with alike namesakes, as with distinct ids, each counted by its own subtree |
| SemanticShown.MostTargetsFirst | packages/browser-core/src/browser-semantic-serializer.ts:69-77 | siblings are a permutation ordered by how many targets of the page their last namesakes hold, which with alike namesakes is how many they hold |
| SemanticShown.EqualsKeepOrder | packages/browser-core/src/browser-semantic-serializer.ts:69-77 | siblings for which equally many are recorded keep their old order |
| FileSystems.FileSystem.Rename | packages/config/src/data-dir.ts:205-218 | an atomic rename that fails onto a non-empty directory or a non-directory, across devices, or for any other reason |
| DataDir.PathsDiffer | packages/config/src/data-dir.ts:36-46 | primary, legacy and backup path are never confused |
| DataDir.ProfilesDiffer | packages/config/src/data-dir.ts:36-46 | every profile has directories of its own, and every run a backup name of its own |
| FileSystems.ContentOf | packages/config/src/data-dir.ts:110-125 | a directory is empty exactly when it holds nothing but an empty workspace directory, and unreadable exactly when all it holds is a workspace that is no directory |
| DataDir.ReadContent | packages/config/src/data-dir.ts:110-125 | a directory counts as empty also when it holds only an empty workspace; failing calls give unknown |
| DataDir.PrepareLegacyPathForLink | packages/config/src/data-dir.ts:156-183 | never loses a directory with content; refuses exactly what may hold data |
| DataDir.EnsureCompatLink | packages/config/src/data-dir.ts:185-193 | without failures the nodes of `DataDir.WithCompatLink`, with any failures nothing lost; when the link is there afterwards is `DataDir.LegacyLinksToPrimaryIff` |
| DataDir.CopyLinkTargetIntoPrimary | packages/config/src/data-dir.ts:220-249 | the data is intact at the target or complete at the primary path, whichever call fails |
| DataDir.MigrateLinkTargetIntoPrimary | packages/config/src/data-dir.ts:251-275 | likewise for the rename of the link's target; if only the unlink fails, the data is complete at the primary path and the legacy path dangles |
| DataDir.ReplaceEmptyPrimary | packages/config/src/data-dir.ts:325-336 | an empty primary directory gives way to the legacy data |
| DataDir.SettleWithPrimary | packages/config/src/data-dir.ts:301-340 | the decision when the primary path is a directory: adopt the legacy data, return the legacy path, or keep the primary one |
| DataDir.AdoptLegacy | packages/config/src/data-dir.ts:345-362 | the legacy data becomes the primary directory or stays where it is |
| DataDir.ResolveDataDirPair | packages/config/src/data-dir.ts:287-382 | for every pattern of failing calls every directory with content is intact where it was, or at the primary or backup path; without failures the outcome is `Settled` |
| DataDir.LegacyLinksToPrimaryIff | packages/config/src/data-dir.ts:156-193 | over all starting file systems without failing calls: after a run the legacy path is a link to the primary one exactly if it was, or if what is there gives way: nothing, a file, a link that hides no data, or a directory that can be moved or backed up |
| DataDir.ReturnsLegacyIff | packages/config/src/data-dir.ts:287-382 | the legacy path is returned exactly when it may hide data or holds data that cannot be moved, beside a primary path without content |
| DataDir.PrimaryHoldsData | packages/config/src/data-dir.ts:287-382 | a returned primary path holds its own content, else what the legacy path led to, else an empty directory; a link or file there stays unless the one clean-up removes it |
| DataDir.BackupIsMadeIff | packages/config/src/data-dir.ts:140-154 | the legacy directory becomes the backup exactly beside a primary directory in use, or when it is empty, if it can be renamed |
| DataDir.OtherPathsStay | packages/config/src/data-dir.ts:287-382 | no other path is touched but the directory that the legacy path leads to |
| DataDir.SecondRunChangesNothing | packages/config/src/data-dir.ts:287-382 | a second run changes nothing and returns the same path, if and only if neither of two conditions on the first run's start holds |
| DataDir.FailedCopyRemovesPrimaryLink | packages/config/src/data-dir.ts:238-249 | a concrete file system on which the failed copy removes a link and a second run does more |
| DataDir.FailedCopyCutsOffData | packages/config/src/data-dir.ts:238-249 | a concrete file system on which, without a failing call, neither path leads to the data after the run |
| DataDir.BlockedBackupIsRetried | packages/config/src/data-dir.ts:140-183 | a concrete file system on which the first run finds its backup name taken and the second run makes the backup |
| DataDir.MovedAwayDangles | packages/config/src/data-dir.ts:251-275 | after the rename alone, the target is complete at the primary path and no path that led to it leads anywhere |
| DataDir.ReturnedPathLeadsToData | packages/config/src/data-dir.ts:287-382 | without failures the returned path leads to what the primary directory held, else to what the legacy path led to, if and only if the primary path is accessible and the run does not remove the link through which alone the legacy path led there |
| NetworkLog.RunKeepsInv | packages/browser-core/src/cdp-helper.ts:867-987 | after every sequence of events: at most 200 entries, strictly increasing sequences at most `lastSequence`, every mark points to an entry of its own request id |
| NetworkLog.EndedEntriesNeverChange | packages/browser-core/src/cdp-helper.ts:909-950 | as long as the transport is the same, an entry outside the live map never changes again and never becomes live again |
| NetworkStory.EntriesTellWhatHappened | packages/browser-core/src/cdp-helper.ts:867-950 | in every run each entry is that of a request of the main frame, and its outcome is how that request ended, by failure with its reason or by redirect, else an error status of one of its answers, else whether it finished, by the events alone |
| NetworkStory.EntriesShowWhatWasHeard | packages/browser-core/src/cdp-helper.ts:909-973 | it shows of each field of its answers the last that was present, the first kind of resource that says something, and how long the request took, by what came until it ended |
| NetworkStory.RequestIsListed | packages/browser-core/src/cdp-helper.ts:867-907 | a request of the main frame is listed last, pending, under the next number |
| NetworkStory.ListedUnlessCleared | packages/browser-core/src/cdp-helper.ts:975-1040 | an entry leaves exactly when the log is cleared of it, or is full and it is the oldest when a request comes |
| NetworkStory.LastSequenceCounts | packages/browser-core/src/cdp-helper.ts:888-892 | the last number is how many requests of the main frame were sent over the present transport |
| NetworkLog.PageBytesOfText | packages/browser-core/src/cdp-helper.ts:671-682 | the bytes that the loop compares are the length of the JSON text of the page |
| NetworkLog.PageBytesMonotone | packages/browser-core/src/cdp-helper.ts:664-682 | a longer suffix takes no fewer bytes |
| NetworkLog.StatusFiltersAdd | packages/browser-core/src/cdp-diagnostic-helpers.ts:105-116 | several status filters let through what any one of them does, and none lets everything through |
| NetworkLog.QueriedIff | packages/browser-core/src/cdp-helper.ts:655-662 | an entry is queried exactly when it is newer, of a wanted status and kind, and its address holds the wanted part |
| NetworkLog.QueryPage | packages/browser-core/src/cdp-helper.ts:643-692 | the maximal suffix of the matching entries within limit and byte budget |
| NetworkDiagnostics.Diagnostics.RequestWillBeSent | packages/browser-core/src/cdp-helper.ts:867-907 | a redirect ends the previous entry; the request gets a new entry and mark |
| NetworkDiagnostics.Diagnostics.ResponseReceived | packages/browser-core/src/cdp-helper.ts:909-921 | only the live entry of the request changes |
| NetworkDiagnostics.Diagnostics.LoadingFinished | packages/browser-core/src/cdp-helper.ts:922-930 | the live entry succeeds unless it already had an outcome, and loses its mark |
| NetworkDiagnostics.Diagnostics.LoadingFailed | packages/browser-core/src/cdp-helper.ts:931-949 | the live entry fails with its reason and loses its mark |
| NetworkDiagnostics.Diagnostics.AppendRequest | packages/browser-core/src/cdp-helper.ts:975-987 | the oldest entries beyond 200 leave, and exactly the marks that point to them |
| NetworkDiagnostics.Diagnostics.ResetForNavigation | packages/browser-core/src/cdp-helper.ts:1029-1040 | entries and marks of the new document's loader stay |
| NetworkDiagnostics.Diagnostics.RemoveListener | packages/browser-core/src/cdp-helper.ts:577-593 | what was seen stays, nothing is live any more |
| NetworkDiagnostics.Diagnostics.KnowMainFrame | packages/browser-core/src/cdp-helper.ts:466-479 | the frame tree names the main frame; entries and marks stay |
| NetworkDiagnostics.Diagnostics.DetachFrame | packages/browser-core/src/cdp-helper.ts:771-779 | a detached main frame clears the log, another frame does not |
| NetworkDiagnostics.Diagnostics.ResetConnection | packages/browser-core/src/cdp-helper.ts:251-275 | recovery discards the entries and keeps the sequence |
| NetworkDiagnostics.Diagnostics.ReplaceTransport | packages/browser-core/src/cdp-helper.ts:155-166 | a new transport starts the sequence again |
| DragGesture.TallyIsExact | packages/browser-core/src/cdp-helper.ts:1268-1272 | the gesture's flags say exactly what its log of commands still owes |
| DragGesture.CompleteGesture | packages/browser-core/src/cdp-helper.ts:1299-1411 | which command a complete gesture sends at each place, and how many |
| DragGesture.Gesture.DispatchDragGesture | packages/browser-core/src/cdp-helper.ts:1238-1419 | for every fault pattern: an acknowledged press is taken back, never both a release and a drop acknowledged, the listener gone, interception disabled or attempted; a success sent exactly the complete gesture, a drop only on a page that starts a drag, and without failures the gesture succeeds, with a drop exactly on such a page |
| FilePathTag.DecodeEscape | packages/agent-extension/src/source-reference.ts:1910-1929 | the five decoding passes undo the four escaping passes on every string |
| FilePathTag.EscapedIsInert | packages/agent-extension/src/source-reference.ts:1910-1916 | escaped text holds no quote and no angle bracket |
| FilePathTag.AttributeOfPrinted | packages/agent-extension/src/source-reference.ts:1905-1908 | scanning a printed attribute finds exactly the escaped path |
| FilePathTag.PathIsRead | packages/agent-extension/src/source-reference.ts:1905-1908 | the attribute that stands first in any tag, in either spelling, case or kind of quote, gives the path |
| FilePathTag.BodyIsRead | packages/agent-extension/src/source-reference.ts:1905-1908 | when none stands there, the body gives it, without the spaces around it |
| FilePathTag.TagRoundTrip | packages/agent-extension/src/source-reference.ts:1259-1259 | parsing a printed tag gives the path back, whatever the path, name and body; the tag is its attributes and its name |
| Utf8Budget.ByteLengthSplits | packages/agent-extension/src/tool-output-budget.ts:220-260 | byte lengths add up at every position outside a surrogate pair |
| Utf8Budget.PairsAreLargePoints | packages/agent-extension/src/tool-output-budget.ts:254-260 | every code point beyond 16 bits is one high and one low surrogate |
| Utf8Budget.EncodedRoundTrip | packages/agent-extension/src/tool-output-budget.ts:220-230 | the UTF-8 bytes of a code point decode to it |
| Utf8Budget.ByteLengthIsEncoded | packages/agent-extension/src/tool-output-budget.ts:220-252 | the byte length of a text, as the scans add it up, is that of its UTF-8 encoding |
| Utf8Budget.ScansAgree | packages/agent-extension/src/tool-output-budget.ts:220-260 | forward and backward scan cut every string, lone surrogates included, at the same positions |
| Utf8Budget.TakeUtf8Start | packages/agent-extension/src/tool-output-budget.ts:220-230 | the longest prefix of whole code points within the budget |
| Utf8Budget.TakeUtf8End | packages/agent-extension/src/tool-output-budget.ts:232-252 | the longest suffix of whole code points within the budget |
| Utf8Budget.TruncateUtf8 | packages/agent-extension/src/tool-output-budget.ts:320-326 | never more than the bound; the text itself, or its longest prefix that leaves room for an ellipsis, or nothing |
| Utf8Budget.HeadTailPreview | packages/agent-extension/src/tool-output-budget.ts:214-218 | longest head and tail of half the budget each, around the notice |
| Utf8Budget.HeadAndTailDisjoint | packages/agent-extension/src/tool-output-budget.ts:214-218 | a budget of at most the text's bytes repeats nothing |
| Utf8Budget.PreviewRepeatsIff | packages/agent-extension/src/tool-output-budget.ts:214-218 | head and tail overlap exactly when some code point lies within both halves of the budget |
| Utf8Budget.AmpleBudgetRepeats | packages/agent-extension/src/tool-output-budget.ts:214-218 | with twice the bytes as budget every text is repeated |
| Utf8Budget.LargerBudgetMayRepeatNothing | packages/agent-extension/src/tool-output-budget.ts:214-218 | a concrete text that a budget above its bytes does not repeat |
| StableSort.SortDescends | packages/browser-core/src/dom-serializer.ts:196-201 | the sort is a permutation in descending order |
| StableSort.SortIsStable | packages/browser-core/src/dom-serializer.ts:196-201 | equals keep their old order |
| StableSort.SortIsUnique | packages/browser-core/src/dom-serializer.ts:196-201 | descending order and stability leave only one list |
| PaintOrder.CoverIsKept | packages/browser-core/src/dom-serializer.ts:202-223 | whatever covers an element, even if itself removed, some kept element covers it too |
| PaintOrder.FilterByPaintOrder | packages/browser-core/src/dom-serializer.ts:187-229 | with distinct indices the loop keeps exactly the uncovered elements; kept and filtered counts make up the input |
| PaintOrder.RemovedAreCovered | packages/browser-core/src/dom-serializer.ts:187-229 | a removed element lies inside a kept one painted no earlier, and no kept one inside one painted later |
| PaintOrder.ContainedIffPoints | packages/browser-core/src/dom-serializer.ts:310-317 | a box contains another exactly when it holds all of its points |
| Redaction.ContainerLoad | packages/browser-core/src/console-diagnostic-sanitizer.ts:47-91 | the containers read from a node are itself and those of its unredacted children |
| Redaction.VisitContainer | packages/browser-core/src/console-diagnostic-sanitizer.ts:66-87 | one container rewritten in place, its remaining children pushed |
| Redaction.SensitiveIffSpelled | packages/browser-core/src/console-diagnostic-sanitizer.ts:43-45 | a key is sensitive exactly when it spells one of the nine words, in either case, with dashes and underscores anywhere |
| Redaction.RedactStructuredCredentials | packages/browser-core/src/console-diagnostic-sanitizer.ts:47-91 | true exactly when the tree pruned at sensitive keys has at most 1000 containers and depth at most 12, and then every sensitive key is redacted and everything else unchanged |
| ResolveExtensions.ResolveExtensions | packages/agent-runtime/src/resolve.ts:21-101 | succeeds exactly under the stated conditions, with the simultaneous replacement applied to base without the disabled plus the enabled additions in order; ids are distinct |
| ResolveExtensions.CheckPool | packages/agent-runtime/src/resolve.ts:27-35 | fails exactly on a duplicate id among base and additions |
| ResolveExtensions.Disable | packages/agent-runtime/src/resolve.ts:45-51 | removes the disabled ids, fails exactly when one is not in the base |
| ResolveExtensions.CheckEnable | packages/agent-runtime/src/resolve.ts:57-67 | fails exactly when an enabled id is disabled too or is not an addition |
| ResolveExtensions.Replace | packages/agent-runtime/src/resolve.ts:72-89 | replaces every target at once, fails exactly on a missing target or source |
| ResolveExtensions.OverlayResolvesIff | packages/agent-runtime/src/resolve.ts:37-100 | the conditions on an overlay, the last one as: no two targets share a source and a source that is loaded is itself replaced |
| ResolveExtensions.SelectedAreChosen | packages/agent-runtime/src/resolve.ts:45-67 | what is to be loaded is one pass over base and additions: of the base what is not disabled, of the additions what is enabled |
| ResolveExtensions.LoadedInPlace | packages/agent-runtime/src/resolve.ts:72-100 | an overlay that resolves loads each of them, or what the last entry for it names, in its place |
| ResolveExtensions.SwapChangesPlaces | packages/agent-runtime/src/resolve.ts:72-89 | two extensions replaced by each other change places and nothing else moves |
| AssemblyRegistry.CreateAgentRuntime | packages/agent-runtime/src/api.ts:16-29 | a duplicate id is never found while loading what resolution returns |
| AssemblyRegistry.Registry.InitExtensions | packages/agent-runtime/src/registry.ts:158-187 | ready with every extension's contributions in load order exactly when ids are distinct and no init fails, whatever facades of other extensions try while an init awaits; else failed and empty |
| AssemblyRegistry.LoadedAsRegistered | packages/agent-runtime/src/registry.ts:158-187 | a loaded extension has its own id and exactly what its init registered, of each kind and for each event in the order of registration |
| AssemblyRegistry.Registry.Register | packages/agent-runtime/src/registry.ts:247-322 | a registration counts only in the owner's own init window |
| AssemblyRegistry.Registry.YieldInInit | packages/agent-runtime/src/registry.ts:247-322 | while an init awaits, registrations by other owners, enabling and disposing have no effect |
| AssemblyRegistry.Registry.SetEnabled | packages/agent-runtime/src/registry.ts:189-205 | changes one extension for one session, or for all sessions without an override, and nothing else |
| AssemblyRegistry.Registry.DisposeSession | packages/agent-runtime/src/registry.ts:224-227 | a session's overrides, and no others, are gone |
| AssemblyRegistry.Registry.AssembleModelContext | packages/agent-runtime/src/registry.ts:326-343 | the tools and the system prefix of the extensions enabled at the call, whatever changes while it awaits; once ready it fails exactly when a tool name is given twice or a contributor throws, with an error that is true |
| AssemblyRegistry.Registry.AssembleTurn | packages/agent-runtime/src/registry.ts:345-435 | the same tools and system prefix, and the prompts, reminders, hooks and diagnostics of the extensions enabled at the call; it fails under the same condition or when a prompt contributor or reminder provider throws |
| AssemblyRegistry.TurnAndModelContextAgree | packages/agent-runtime/src/registry.ts:326-435 | what the contracts of `AssembleModelContext` and `AssembleTurn` have in common: from one snapshot there is a turn exactly when there is a model context and nothing else throws, and it has the same tools, under distinct names, and the same system prefix |
| AssemblyRegistry.TurnOfEnabledOnly | packages/agent-runtime/src/registry.ts:371-408 | disabled extensions contribute nothing, the enabled ones keep load order, hooks included |
| AssemblyRegistry.ReminderOrder | packages/agent-runtime/src/registry.ts:410-413 | the reminders are the one list in descending priority with equals in emission order |
| AssemblyRegistry.UrgentRemindersFirst | packages/agent-runtime/src/registry.ts:410-413 | of two reminders the more urgent comes first, one without a priority counting as 0 |
| AssemblyRegistry.TurnExistsIff | packages/agent-runtime/src/registry.ts:345-435 | there is a turn exactly when every contributor of an enabled extension answers and no tool name comes twice |
| AssemblyRegistry.IdsOfTurn | packages/agent-runtime/src/registry.ts:371-376 | a turn names the extensions enabled for it, and those that were not |
| AssemblyRegistry.ToolsOfTurn | packages/agent-runtime/src/registry.ts:371-387 | the tools of a turn are those given and those that contributors of enabled extensions return |
| AssemblyRegistry.RemindersOfTurn | packages/agent-runtime/src/registry.ts:388-394 | its reminders are those that providers of enabled extensions return |
| AssemblyRegistry.HooksOfTurn | packages/agent-runtime/src/registry.ts:396-408 | its hooks are the handlers of enabled extensions; those of steps are bound to the turn, those of its start and end are not |
| AssemblyRegistry.JoinSplits | packages/agent-runtime/src/registry.ts:342-342 | a joined text holds each of its parts in order, between blank lines |
| AssemblyRegistry.SystemPromptPartsIff | packages/agent-runtime/src/registry.ts:326-343 | the parts of the system prompt are exactly the prompts that contributors of enabled extensions return, none empty |
| AssemblyRegistry.SystemPromptHoldsAll | packages/agent-runtime/src/registry.ts:326-343 | every prompt that a contributor of an enabled extension returns is a paragraph of the system prompt |
| AssemblyRegistry.UserPromptHoldsAll | packages/agent-runtime/src/registry.ts:383-386 | likewise of the user prompt, which begins with the prompt given |

## Left out

- Windows path comparison, relative link targets and nested paths in the data-directory migration; a path is a normalised absolute name.
- FileSystems.FileSystem.Unlink: files and links hold no data that counts; only directories with content are claimed to survive, since the code unlinks files at the legacy path.
- Logging, clocks and random names: stamps, times and snapshot ids are parameters.
- BrowserSession.Session.Invalidate: does not model the `ElementMap` mirror of opaque refs and the keyboard target, which the source clears at the same time.
- BrowserSession.Session.InvalidateFrame: does not model `frameRefs` and the keyboard target; the editable list's own filtering is `SnapshotContinuation.EditableListFollows`.
- SnapshotPaging.Snapshot.Continue: the refusals of a stale snapshot and of a snapshot of another kind come before it and are in `SnapshotContinuation.AnswerTo`.
- SnapshotContinuation.DeliveredOnceUnderInterference: the sizes of a list's pages and which elements can be edited are given; an editable query takes its list in the step that publishes its snapshot.
- SemanticParents.ParentsAreAcyclic: frame keys that begin with "ax:" are excluded, as `SemanticCollision.FrameNamedAxMakesCycle` needs.
- SemanticTree.TreeHoldsEveryKeptNodeOnce: the same exclusion; `SemanticCycles.LostIffCycleIsShared` has none.
- The fallback for a session whose latest snapshot was put there without the store; in every reachable state the latest snapshot is stored.
- The provenance of a fused node: a label that decides nothing.
- Texts, roles and styles of semantic nodes are read by two given functions (`SemanticTree.Readers`), so role tables of tags, names, heading levels and states are not modelled; the keep rules on them are.
- `searchSemantic`, `filterSemanticTree`, `mergeSemanticTrees` and what a snapshot's tree contains: only its size counts for paging.
- SemanticShown.AlikeNamesakesLoseNoTarget: refs are taken to be non-empty, as they are minted; `SemanticShown.OpenTargetsAreShown` needs neither that nor distinct ids.
- SemanticShown.NodesWorthShowingAreShown: with repeated ids nodes are counted by their last namesakes, since merged trees of attached frames may repeat ids; what is shown of a node is its printed fields, not which of two equal nodes it is.
- Sizes of printed nodes and pages: the bytes of one element, node or entry are given numbers; how they add up to a page is modelled.
- NetworkLog.EndedEntriesNeverChange: a replaced transport starts its sequence again, so numbers are only compared within one transport.
- NetworkLog.QueryPage: the limit and `afterSequence` come already brought into range; method and wall-clock time of an entry count only towards its size; cleaning and shortening of its texts happens before.
- ActionGate.RunKeepsInv: recovery is taken to give an answer, as it does not throw; action deadlines only matter as the moment of an abort.
- Console diagnostics: same shape as network diagnostics, with fewer cases.
- Coordinates and drag data of a gesture; whether the page starts a drag is given, and asking for it is a call that may fail.
- Redaction.RedactStructuredCredentials: the parsed JSON is a tree, so no container is reached twice; numbers, booleans and null are texts to it.
- Regular-expression rewriting of citations beyond printing and parsing the tag, `boundedSourceReferenceMarkers`, `collectBoundedConsoleArgumentText`.
- `filterByBoundingBox` and `formatAsTree`: two near-identical boxes can remove each other, so there is no coverage to prove.
- Floating-point numbers are real numbers; paint orders and priorities are compared, durations are rounded.
- AssemblyRegistry.Registry.AssembleModelContext: contributors answer, or throw, the same for the same context; a tool contribution is the list it resolves to; of several failures the error names one that is there.
- AssemblyRegistry.Registry.AssembleTurn: likewise.
- AssemblyRegistry.Registry.Register: an owner is its id, and the error of a refused call ends the call, not the init around it.
- `params` and `listExtensions` of the registry: mapping without a decision.
- Screenshots, uploads, clipboard, page scripts, page scanning heuristics, permission and plan modes: calls to other systems or tables.
