# STAC toolbox: a verified model

This project models the self-contained algorithms of a FastAPI service that collects, validates,
exports and searches SpatioTemporal Asset Catalogs (STAC), and proves what they promise. HTTP, S3,
schema validation and the clock are parameters; everything else follows the source branch by branch.

| file | models |
|---|---|
| `BreadthFirst.dfy` | the shared batched, deduplicating, capped, host-pinned breadth-first search, against a one-at-a-time reference search |
| `StacObjects.dfy`, `StacTraversal.dfy` | STAC documents, fetching with page expansion, and the two discovery policies (static links, API endpoints) |
| `StacDiscovery.dfy` | what a fetch gives and what the two policies discover, in terms of the documents |
| `StacCollector.dfy`, `StacPlans.dfy` | collecting a whole tree: fetch the root, choose the policy, search; parent chains; where the search starts |
| `GraphWalk.dfy` | recursive walks over numbered graphs with repeated children and loops: when they end, what they visit |
| `ReportGraph.dfy`, `ReportTree.dfy` | the shape of the validation report as a numbered graph: storing by URL, attaching to parents; the tree of objects with URLs of their own |
| `ValidationReport.dfy` | the report as heap nodes updated in place, the version gate, the recursive and the flat summary |
| `ReportAgreement.dfy`, `ReportContents.dfy` | when the two summaries agree, and what they then say about the objects and their issues |
| `StacValidation.dfy` | the whole validation feature, from the root URL to the finished tree |
| `SharedUrls.dfy` | one small catalog whose report depends on the number of parallel fetches |
| `JobRuns.dfy`, `JobManager.dfy`, `JobRunner.dfy` | the job runner: one run as a state machine, the manager as a state machine, and the classes that update runs in place |
| `JobEndings.dfy` | how a run starts and ends, told by its events alone |
| `Names.dfy`, `NameShapes.dfy`, `Paths.dfy` | safe export names, slugs, decimal suffixes, character by character; `dirname`, `join`, `normpath` and `relpath` on path segments |
| `CatalogExport.dfy`, `CollectionExport.dfy` | laying out a catalog tree or one collection as files and rewriting its links |
| `ExportContents.dfy` | what each exported file holds, in terms of the documents that were given |
| `TreeFiles.dfy` | writing files one after the other, and when a catalog tree keeps every file |
| `CatalogImport.dfy`, `PrefixReader.dfy`, `PrefixContents.dfy` | resolving links on import, combining sources, reading a folder of collections and what it gives file by file |
| `CatalogWalk.dfy` | the level-by-level catalog walk |
| `Geometry.dfy`, `BoxUnion.dfy` | the box of a geometry, the polygon of a box, the union of flat and solid boxes |
| `ArcoAssets.dfy` | asset keys of the ARCO pipeline |
| `LogStore.dfy` | the bounded log store and its search |
| `Wrappers.dfy`, `Sequences.dfy`, `Sorting.dfy` | options and results, facts about sequences, the stable sort |

The style follows the source: loops and objects that change are methods and classes proved against
specification functions, and what is promised is proved about those functions.

## Where the code differs from its promises

Each of these is stated with an exact condition or a concrete counterexample.

- The running minimum of `geometry_bbox` overwrites the first position it keeps, so an open line can
  lose its eastern or northern end (`OpenLineLosesItsStart`); `BoxIsExactIffLimitsSurvive` says when the
  box is right, and closed rings are always right (`RingBoxIsExact`).
- `bbox_to_geometry` reads the last two of six values, which are north and top, as east and north:
  the corners of a solid box come back exactly when east, north and top are equal
  (`PolygonInvertsSolidBoxIff`).
- The folder check of the catalog export falls back to `object`, the layout to `collection`. Ids that
  pass the check share a folder exactly when one has no letter or digit while another is exported as
  `collection` (`FoldersDifferIffNoFallbackClash`, `FallbackClashExample`).
- Feature URLs never enter the visited set, so two objects can share a URL. The recursive summary ends
  and visits exactly the nodes of the flat summary, each once, if and only if no two objects do
  (`WalkIsExactIffUrlsDiffer`). Equal counts do not mean different URLs (`SharedUrlWithEqualCounts`).
  With shared URLs the number of parallel fetches decides what the report says: one catalog is invalid
  with one fetch at a time and valid with more, while the flat summary shows no error either way
  (`WidthDecidesValidity`), and another has an endless recursion with more than one fetch at a time
  only (`WidthDecidesTheEnd`).
- A root that answers with no object gives an empty first batch, whose first element is read: an index
  error takes the place of the documented fetch error. The model calls it `NoRootObject`. It happens
  exactly for a listing of collections and for an items page without features (`RootIsEmptyIff`,
  `NoRootIff`, and a clause of `ValidateStac`).
- The collector says that nothing aborts the traversal, but unreadable or unresolvable links do: those
  of the root, and those of one feature of any items page that the search fetches
  (`CollectorRaisesIff`, `NullLinksOfAFeatureAbort`).
- A process-level interrupt is caught by no handler of a run. A run whose task is over has not ended
  exactly when an interrupt took it out of its await and no cancel came later (`StuckIffInterrupted`).
- The logger filter is documented as a prefix but is a `LIKE` pattern; it is a prefix test exactly for
  prefixes without `_` and `%` (`LoggerPrefixIsPrefixIff`), and most logger names here hold a `_`.
- The catalog walk promises that one dead catalog cannot fail it. That holds for an unreachable one, but
  a document that is no object, or whose links cannot be iterated over, makes the walk raise; the exact
  condition is `WalkRaises`, in the contract of `FindCatalog`, and `NullLinksOfAChildAbort` is an input.
- A collection file without an id is read from a source prefix (`NamelessCollectionIsRead`), and then
  combining the sources fails on the missing member (`NamelessCollectionFails`).
- An item read from `collection.json`, beside a collection in another file of that directory, is written
  over the collection (`ItemOverCollection`); `CatalogTreeKeepsFilesIff` says when no file is lost.
- Writing a collection into its source prefix replaces it again by an item, exactly when an item was
  read from `collection.json` there (`CollectionSurvivesIff`). The links that the items had are dropped.
- Item paths read back from an export at the very top of a file system, or from a bare file name, lose
  their folders (`ItemPathReadsBackIff`).
- An output whose declared key is the key of its source keeps it even where another output of the run
  was given that key, which then loses its entry: two layers of an asset named `parquet`
  (`LayersOfParquetClash`), or the upload of an asset named `parquet-2` after two layers
  (`UploadOverNumberedLayer`). `KeysDifferIffNoClash` is the exact condition.

## Model

| member | source | states |
|---|---|---|
| BreadthFirst.QueueUnseen | ept/infrastructure/formats/stac/read.py:501-503 | queues exactly the children that were neither visited nor skipped, in order |
| BreadthFirst.FetchBatch | ept/infrastructure/formats/stac/read.py:483-503 | a batch yields the objects of its entries in order and queues their unseen children; failed fetches and failed discoveries add none |
| BreadthFirst.FillBatch | ept/infrastructure/formats/stac/read.py:464-479 | the inner loop refines `Drain`: skips visited and off-host entries, stops at the width and at the cap |
| BreadthFirst.BfsBatches | ept/infrastructure/formats/stac/read.py:437-521 | the yielded batches concatenate to what a one-at-a-time search yields, and the final visited set is that search's, for every width of at least one; every fetched entry passes the same-host test with the pinned URL; where a fetch raises, the rounds before it were yielded and nothing else |
| BreadthFirst.BatchingIsOnlyAnOptimisation | ept/infrastructure/formats/stac/read.py:461-516 | for any two widths the concatenated batches are the same sequence, that of the first-in first-out search, cap included |
| BreadthFirst.FifoIsBounded | ept/infrastructure/formats/stac/read.py:463-483 | no URL is fetched twice or again, every fetched URL passes the same-host test with the pinned one, the visited set never exceeds the cap |
| BreadthFirst.OtherHostIsSkipped | ept/infrastructure/formats/stac/read.py:469-477 | an entry on another host than the pinned one is passed over: the search goes on as if it were not queued |
| BreadthFirst.RoundsAreFilled | ept/infrastructure/formats/stac/read.py:463-483 | every round fetches at least one entry and at most the width |
| BreadthFirst.RoundsGrowWithinCap | ept/infrastructure/formats/stac/read.py:463-483 | the batched search itself never visits more than the cap |
| BreadthFirst.UncappedSearchIsExact | ept/infrastructure/formats/stac/read.py:463-503 | a search that stops below the cap has visited the least set that holds the start, the on-host seeds and every on-host child of what it fetched |
| BreadthFirst.RaisingIgnoresBatching | ept/infrastructure/formats/stac/read.py:483-487 | whether a fetch of the search raises does not depend on the width, and the batches yielded before it hold a beginning of what the search yields |
| StacTraversal.StaticSearchIsLayered | ept/features/validate_stac/validation.py:228-267 | static discovery: every found entry is a page beside its page or one level below an object of the entry, and then the depth limit was not reached |
| StacTraversal.ApiSearchIsLayered | ept/infrastructure/formats/stac/read.py:664-696 | the same for API discovery: listed collections and next pages stay beside, items and links go one level below |
| StacTraversal.RoundsAreWellFounded | ept/infrastructure/formats/stac/read.py:411-431 | every object of every batch has a parent in an earlier batch with depth one less, and no depth exceeds the limit |
| StacTraversal.FetchRaisesIff | ept/infrastructure/formats/stac/read.py:324-343 | a fetch raises exactly on an items page with a feature whose links cannot be read or whose self link cannot be resolved |
| StacDiscovery.FetchIs | ept/infrastructure/formats/stac/read.py:300-375 | what a fetch gives: one error object where the URL cannot be read, none for a listing, one object for each feature of an items page under its self link or a fragment of the page, else the document itself with the type that its members say |
| StacDiscovery.ApiDiscoveryIs | ept/infrastructure/formats/stac/read.py:664-696 | API discovery in order: the next pages; then, below the depth limit with children collected, the URLs of the listed collections and for each object its items endpoint and its child and item links; or nothing, exactly where a link or listing raises |
| StacDiscovery.ApiDiscovers | ept/infrastructure/formats/stac/read.py:664-696 | an entry is discovered if and only if it is a next page, a listed collection, the items endpoint of a fetched collection, or a child or item link of a fetched object, each given by places in the documents |
| StacDiscovery.StaticDiscoveryIs | ept/features/validate_stac/validation.py:228-267 | static discovery in order: the next pages, then below the depth limit for each object its child and item links and the items link of a collection; an object whose links raise is skipped |
| StacDiscovery.StaticDiscovers | ept/features/validate_stac/validation.py:228-267 | the same as an if-and-only-if on one entry |
| StacCollector.ReadStacApi | ept/infrastructure/formats/stac/read.py:649-707 | an API walk yields what the reference search of its plan yields, where the plan and what it discovers are stated on documents by `PlanIs` and `ApiDiscoveryIs`; well founded below the root; it raises exactly when the root's links or one of the search's fetches do, after yielding a beginning |
| StacCollector.ReadStacApiFrom | ept/infrastructure/formats/stac/read.py:632-707 | the same for a root that is fetched here: its own batch comes first, nothing follows a root without data, and a raising root page yields nothing |
| StacCollector.CollectStacTree | ept/features/validate_stac/validation.py:183-278 | the root's batch first, then the batches of the chosen search, well founded below it; raises exactly where the root, its links or a fetch of the search do, after yielding a beginning |
| StacPlans.PlanIs | ept/features/validate_stac/validation.py:199-278 | from the root's documents: nothing more, a raise, the API search from the collections endpoints and the root's own links, or the static search from the root's child and item links |
| StacPlans.ApiTreeIsCollected | ept/infrastructure/formats/stac/read.py:649-696 | a root with a listing of one collection with one items page of one feature: the collection and the feature are yielded, in this order |
| StacPlans.ChildOnAnotherHostIsSkipped | ept/infrastructure/formats/stac/read.py:469-477 | a catalog whose one child lies on another host yields nothing below its root |
| StacCollector.CollectorRaisesIff | ept/features/validate_stac/validation.py:183-278 | the exact documents on which collecting raises: the root's page, the root's links, or a fetched items page with a feature whose links raise |
| StacCollector.NullLinksOfAFeatureAbort | ept/infrastructure/formats/stac/read.py:334-343 | one feature with null links on a linked items page aborts the collection |
| StacCollector.RootIsEmptyIff | ept/infrastructure/formats/stac/read.py:318-331 | the root gives no object if and only if it is a listing of collections or an items page without features |
| StacCollector.ParentsReachTheRoot | ept/features/validate_stac/validation.py:222-267 | following parents from any object gives a chain of depth plus one objects, one level apart, that ends in the first batch |
| StacCollector.PagelessTreesHaveDistinctUrls | ept/infrastructure/formats/stac/read.py:324-361 | when no fetched URL answers with a feature page, all yielded objects have different URLs |
| ReportGraph.DistinctUrlsGiveATree | ept/features/validate_stac/service.py:232-248 | with one root and different URLs every object keeps its own node and a walk from the root visits each node exactly once |
| ReportGraph.WalkIsExactIffUrlsDiffer | ept/features/validate_stac/service.py:232-248 | the recursive walk from the root ends and visits exactly the stored nodes, each once, if and only if all URLs differ |
| ReportGraph.SharedUrlWithEqualCounts | ept/features/validate_stac/service.py:243-248 | a feature under its collection's URL: its node is its own child and out of reach, and both counts are two for three objects |
| ReportTree.ChildrenAreExact | ept/features/validate_stac/service.py:243-248 | with different URLs each node has below it, in order, exactly the objects that name its URL as their parent's, and every parent came before its children |
| SharedUrls.WidthDecidesValidity | ept/features/validate_stac/service.py:232-312 | for one catalog with two features under one URL: invalid with one fetch at a time, valid with any larger number, five visits for four stored nodes without errors either way |
| SharedUrls.WidthDecidesTheEnd | ept/features/validate_stac/service.py:232-289 | for the same catalog with the features under the URL of the first collection: the recursion ends if and only if one entry is fetched at a time |
| SharedUrls.ValidateShared | ept/features/validate_stac/service.py:122-315 | the whole feature, run on the first of these catalogs with any number of parallel fetches |
| ReportGraph.LevelsBoundTheWalk | ept/features/validate_stac/service.py:394-408 | where children lie one level below their parents the recursion is no deeper than the levels left below its start |
| GraphWalk.EndsWithinNodes | ept/features/validate_stac/service.py:394-408 | a recursion that ends at all is no deeper than the number of nodes, so deeper means endless |
| ValidationReport.FlattenResults | ept/features/validate_stac/service.py:394-408 | over any report, loops included: ends exactly when the walk is no deeper than the recursion limit, and then counts the nodes of the walk and lists their errors and warnings in its order |
| ValidationReport.CountIssues | ept/features/validate_stac/service.py:342-347 | adds the errors of one node to the error count and the rule table, new rules in the order of their first error, its warnings to the warning count, and nothing else |
| ValidationReport.BuildSummary | ept/features/validate_stac/service.py:321-359 | the flat summary has the exact counts of every type and rule that occurs, and of valid nodes, errors and warnings; both tables are listed by descending count, ties by first occurrence |
| ValidationReport.StoreBatch | ept/features/validate_stac/service.py:233-234 | judged nodes are stored under their URLs, a later one replacing an earlier one, and no stored node changes |
| ValidationReport.AttachBatch | ept/features/validate_stac/service.py:245-248 | every object with a known parent is appended to that parent's children, in order, and nothing else is changed |
| ValidationReport.CheckVersions | ept/features/validate_stac/service.py:205-216 | finds the first object of a batch that declares another version |
| ValidationReport.AccumulateBatch | ept/features/validate_stac/service.py:226-248 | one batch takes the heap nodes, the URL table and the root from one graph to the next |
| ValidationReport.AccumulateAll | ept/features/validate_stac/service.py:171-248 | after all accepted batches the heap mirrors the report graph; the first rejected batch stops the run with its reason |
| ValidationReport.WarnAboutLimit | ept/features/validate_stac/service.py:271-284 | adds the limit warning to the root and to no other node |
| ValidationReport.ValidateTree | ept/features/validate_stac/service.py:171-315 | for any batches: the first rejection, or too deep a report, or a response that holds the recursive figures of the walk from the root and the flat figures of the stored nodes, with the limit warning when the cap is reached, and whose root heads heap nodes that mirror the report graph; what they show of each object is stated by `AgreementSays` and `ValidateStac` |
| ReportAgreement.DistinctUrlsMakeSummariesAgree | ept/features/validate_stac/service.py:289-315 | with different URLs both summaries count every object once, have the same errors and warnings, the rule counts sum to the errors, and the run is valid exactly when no object is invalid |
| ReportAgreement.RuleCountsAddUp | ept/features/validate_stac/service.py:342-347 | an exact table of rule counts sums to the number of errors |
| ReportAgreement.AllValidIffNoErrors | ept/features/validate_stac/service.py:302-315 | all nodes are valid exactly when no node carries an error |
| ReportContents.AgreementSays | ept/features/validate_stac/service.py:289-359 | with different URLs, in terms of the objects and of judging: the run is valid if and only if no fetch failed and judging lists no error; each issue is listed as often as the objects give it; the counts are those of the objects, by type and by rule |
| ReportContents.FailedFetchIsOneError | ept/features/validate_stac/adapter.py:343-352 | a failed fetch contributes exactly one error with the rule `fetch-error` at its URL, and the run is invalid |
| ReportAgreement.RootStays | ept/features/validate_stac/service.py:236-240 | no later batch takes the place of the root node |
| ReportAgreement.RejectionIgnoresBatching | ept/features/validate_stac/service.py:193-216 | whether and why a run is rejected depends on the yielded objects, not on how the search batched them |
| ReportAgreement.NoRootIff | ept/features/validate_stac/service.py:193-203 | a run is rejected for a missing root exactly when its first batch is empty |
| ReportAgreement.DistinctUrlsNestByDepth | ept/features/validate_stac/service.py:394-408 | with different URLs the recursive summary needs no more nested calls than the depth limit plus one |
| StacValidation.OutdatedIs | ept/features/validate_stac/service.py:205-216 | the version gate stops at the first object that declares another version, and passes exactly when none does |
| StacValidation.ValidateStac | ept/features/validate_stac/service.py:122-315 | the whole feature on any tree of documents with text ids: the verdict is a function of the tree whatever the number of parallel fetches, with the exact documents for a missing root and for a failed root; with one object for each URL both summaries agree with the yielded objects and the tree has one node for each object with exactly its type, validity, issues and children; else the response is a function of the tree and that number |
| JobRuns.TraceKeeps | ept/features/job_runner/manager.py:117-166 | any interleaving keeps a run consistent: ended if and only if it has a finish time, failed if and only if it has a non-empty error, succeeded if and only if it has a result |
| JobRuns.StatusOnlyMovesForward | ept/features/job_runner/manager.py:117-166 | between any two moments the status moved only forward, and an ended run shows the same for ever |
| JobRuns.ResultComesFromReturn | ept/features/job_runner/manager.py:150-153 | a stored result is the value of a return, the one event of the whole trace that made the running run succeed |
| JobRuns.CancelledInQueueNeverStarts | ept/features/job_runner/manager.py:125-131 | a run cancelled in the queue never starts and keeps the finish time of its cancellation |
| JobRuns.StuckIffInterrupted | ept/features/job_runner/manager.py:141-166 | along any interleaving, a run whose task is over has not ended if and only if an interrupt took it out of its await and no cancel came later |
| JobEndings.EventsTellTheRun | ept/features/job_runner/manager.py:117-166 | after any events, these alone tell where the run stands, when it started, and whether it has succeeded with this result, failed with this error or was cancelled at this time: each terminal state has its exact event |
| JobEndings.ExitsShow | ept/features/job_runner/manager.py:149-166 | once the runner returns, raises or is cancelled, everything later shows the result, the message or else the class name, or the cancel, with the time of the exit |
| JobManager.PruneKeepsTheRightRuns | ept/features/job_runner/manager.py:168-186 | pruning drops no run that has not ended, leaves no stale run, leaves exactly the ended runs that fit, and never prefers an earlier one to a later one |
| JobManager.PruneByTimes | ept/features/job_runner/manager.py:168-188 | by status and times alone: runs that have not ended stay, those that ended more than an hour ago go, of the others 99 stay where there were 100 or more, none of them ended before one that goes, and the order is kept |
| JobManager.NextTouchesOneRun | ept/features/job_runner/manager.py:70-96 | an event changes the run that it names and no other; a submission adds one queued run with the given id, owner and time |
| JobManager.NextKeeps | ept/features/job_runner/manager.py:73-166 | every submission and every event of a run keeps the manager sound: different ids, each run consistent |
| JobManager.EveryRunContinuesOrEnded | ept/features/job_runner/manager.py:73-186 | over any sequence of events a registered run is still there and further on, or it is gone for ever and had ended before |
| JobRunner.FeatureRun.BeginExecute | ept/features/job_runner/manager.py:141-149 | the first step of the run's asyncio task takes it to running, or not at all when it was cancelled before |
| JobRunner.FeatureRun.FinishExecute | ept/features/job_runner/manager.py:149-166 | a return ends as succeeded with its value, an exception as failed with its message or else its class name, a delivered cancel as cancelled, each at this time, and an interrupt leaves the status; all fields change as in the state machine |
| JobRunner.FeatureRun.Cancel | ept/features/job_runner/manager.py:117-139 | cancelling updates the run as the state machine does and waits only for a live task of a running run |
| JobRunner.RunManager.Prune | ept/features/job_runner/manager.py:168-186 | the dictionary after pruning is the specified one and no run is changed |
| JobRunner.RunManager.Submit | ept/features/job_runner/manager.py:73-96 | prunes, then adds one new queued run whose task waits |
| Names.ExportNameIsSafe | ept/infrastructure/utils/names.py:20-32 | an export name is never empty, one or two dots, and holds no slash |
| Names.ExportNameIsIdempotent | ept/infrastructure/utils/names.py:26-32 | exporting an export name gives it again, whatever the fallback |
| Names.FallbackIffNoAlnum | ept/infrastructure/utils/names.py:20-32 | the fallback is used exactly for values without a letter or digit |
| NameShapes.ExportNameIs | ept/infrastructure/utils/names.py:20-32 | the export name character by character: the trimmed text where it is usable as a name, else its letters and digits in small letters with a dash wherever others lie between, else the fallback |
| Paths.RelpathLeadsBack | ept/infrastructure/formats/stac/catalog.py:165-181 | a relative path, joined to the directory it starts from and normalised, is the path it was computed for |
| CatalogExport.ExportIsLinkClosed | ept/infrastructure/formats/stac/catalog.py:110-187 | every root, parent, collection, item or child link of every file leads to an emitted file of that kind (and of that collection), and every collection and item is linked |
| CatalogExport.OtherLinksSurvive | ept/infrastructure/formats/stac/catalog.py:161-184 | the untouched links of the exported collection and of each item are, at a strictly increasing list of places, exactly the link objects of the document without a rewritten relation |
| ExportContents.TreeFilesHold | ept/infrastructure/formats/stac/catalog.py:91-184 | every file of the tree in order: path, kind, id, collection, the text of its document, and its links: those copied, then the rewritten ones, where each href leads; and nothing else is written |
| CatalogExport.RequireUnique | ept/infrastructure/formats/stac/catalog.py:190-197 | accepts exactly the lists in which no non-empty id occurs twice |
| CatalogExport.Dirnames | ept/infrastructure/formats/stac/catalog.py:200-225 | accepts exactly the lists in which every collection has an id and a checked folder of its own; else names the first in the way |
| CatalogExport.FoldersDifferIffNoFallbackClash | ept/infrastructure/formats/stac/catalog.py:132-225 | for accepted ids the folders really written differ if and only if the two fallbacks do not clash |
| CatalogExport.FallbackClashExample | ept/infrastructure/formats/stac/catalog.py:142-211 | two accepted ids that are written to one folder |
| CatalogExport.CollectionScope | ept/infrastructure/formats/stac/catalog.py:132-187 | gives the files of the collection and its items, or none when one does not validate |
| CatalogExport.CatalogTreePayloads | ept/infrastructure/formats/stac/catalog.py:91-129 | gives the specified files or the first reason against them: repeated ids, a missing id or a shared folder, an invalid document |
| TreeFiles.EveryFileIsKeptIff | ept/features/stac_catalog_tree/service.py:513-549 | writing files one after the other leaves as many as were written if and only if their paths differ |
| TreeFiles.CatalogTreeKeepsFilesIff | ept/infrastructure/formats/stac/catalog.py:110-187 | a catalog tree keeps every file if and only if the written folders differ and in each the safe item paths differ and none is `collection.json` |
| TreeFiles.ItemOverCollection | ept/infrastructure/formats/stac/catalog.py:148-187 | an item read from `collection.json` takes the place of the collection |
| CollectionExport.CollectionTreePayloads | ept/infrastructure/formats/stac/collection.py:104-163 | gives the specified files, or fails when the collection has no id, two item ids give one name or a document does not validate |
| CollectionExport.CollectionTreeIsLinkClosed | ept/infrastructure/formats/stac/collection.py:136-162 | every rewritten link leads to the collection's file or to a file of one of its items, and every item is linked |
| CollectionExport.CollectionTreePathsDiffer | ept/infrastructure/formats/stac/collection.py:123-134 | accepted names give every file of the tree a path of its own |
| CollectionExport.CollectionTreeKeepsFiles | ept/infrastructure/formats/stac/collection.py:123-162 | accepted names let no file of the tree replace another: when all are written each is found at its path |
| CollectionExport.CollectionTreeKeepsLinks | ept/infrastructure/formats/stac/collection.py:120-159 | the untouched links of the collection and of each item are, in order, exactly those of the document without a rewritten relation |
| ExportContents.CollectionTreeHolds | ept/infrastructure/formats/stac/collection.py:120-159 | every file of a collection tree: path, kind, id, collection, text, and its links, copied and rewritten |
| CollectionExport.ExportIntoSourcePrefix | ept/features/stac_collection_tree/export.py:120-158 | overwrites the links of every item and the collection in place and gives their files |
| CollectionExport.RelinkedTreeIsLinkClosed | ept/features/stac_collection_tree/export.py:136-168 | the links written in place lead from any depth to the collection, and from it to every item |
| CollectionExport.CollectionSurvivesIff | ept/features/stac_collection_tree/export.py:153-158 | the collection is found at its place after the write if and only if no item was read from there |
| CatalogImport.ItemPathReadsBackIff | ept/features/stac_catalog_tree/service.py:473-496 | an exported item link gives its path again if and only if the collection lies in a non-empty, non-root directory or the path is a bare file name |
| CatalogImport.SecondExportKeepsPaths | ept/features/stac_catalog_tree/service.py:473-496 | importing an exported collection gives its item paths, and exporting them again changes none, nor the folder |
| CatalogImport.CombineSources | ept/features/stac_catalog_tree/service.py:191-223 | keeps the first scope of each id in order; fails exactly when a collection has no id or an id stands for different collections, with the reason that comes first; its result passes the exporter's check of ids |
| CatalogImport.SourcesInOrder | ept/features/stac_catalog_tree/service.py:205-207 | the scopes that were passed directly come first, then those of each catalog, in order and without gaps |
| CatalogImport.NamelessCollectionFails | ept/features/stac_catalog_tree/service.py:208-209 | one collection without an id among any sources makes combining fail |
| CatalogImport.FirstsAreFirst | ept/features/stac_catalog_tree/service.py:208-222 | the combined list holds exactly the scopes that none with the same id precedes |
| CatalogImport.FirstsInOrder | ept/features/stac_catalog_tree/service.py:208-222 | the combined list is, in order, the scopes at the places that none with the same id precedes |
| PrefixReader.CollectDirs | ept/features/stac_catalog_tree/service.py:251-263 | each directory with collection files gets its last one; fails only for a collection at the top or two ids in one directory |
| PrefixReader.CheckNesting | ept/features/stac_catalog_tree/service.py:268-275 | succeeds exactly when no collection directory lies inside another |
| PrefixReader.ClaimAll | ept/features/stac_catalog_tree/service.py:277-297 | each directory claims exactly the valid features inside it, with the warnings for the others |
| PrefixReader.ReadCollectionPrefix | ept/features/stac_catalog_tree/service.py:229-304 | the scopes sorted by id, one for each directory with collection files, each with the last of them and the valid features inside, and the warnings in order; or a reason that the files justify |
| PrefixContents.PrefixIsExact | ept/features/stac_catalog_tree/service.py:243-304 | file by file: the readable files in order, each scope with the last collection file of its directory and the valid features below it by their relative paths, and the exact list of warnings |
| PrefixReader.NamelessCollectionIsRead | ept/features/stac_catalog_tree/service.py:251-275 | nothing justifies rejecting a folder whose collection has no id |
| PrefixReader.ItemsInsideExact | ept/features/stac_catalog_tree/service.py:283-294 | a scope holds exactly the valid features inside its directory, and directory and relative path rebuild the path |
| PrefixReader.FeaturesArePartitioned | ept/features/stac_catalog_tree/service.py:280-301 | every readable feature lies in exactly one collection directory, as an item or named by a warning, or in none and is named by a warning |
| PrefixReader.ClaimOrderDoesNotMatter | ept/features/stac_catalog_tree/service.py:280-303 | two runs in which the directories claim in different orders find the same scopes, give the same warnings and claim the same files; with different ids the sorted lists are equal |
| CatalogWalk.ExpandLevel | ept/features/stac_find/service.py:225-252 | one round finds, once each, the children of the frontier that were not seen before, and skips unreachable documents; it raises exactly when a path of the frontier is an unreachable root or answers with a malformed document |
| CatalogWalk.LayerIsDistance | ept/features/stac_find/service.py:224-255 | the k-th layer holds exactly the paths whose shortest walk along child links, by relation and non-empty href, has k steps, one at least |
| CatalogWalk.FindCatalog | ept/features/stac_find/service.py:215-258 | the found links are those that lead to a path for the first time, in the order in which the documents are expanded, and their paths are the layers one after the other; filtered; raises exactly when the root is unreachable or a path at a distance below the depth cap answers with a malformed document, for a path of the first layer that has one |
| CatalogWalk.FirstNewIs | ept/features/stac_find/service.py:236-250 | of the scanned links exactly the child links are found that no earlier child link shares its path with |
| CatalogWalk.NullLinksOfAChildAbort | ept/features/stac_find/service.py:242-242 | a single child with null links makes the whole walk raise |
| CatalogWalk.WalkListsEachPathOnce | ept/features/stac_find/service.py:224-255 | the walk lists each path at distance one to the depth cap exactly once, and nothing else |
| Geometry.ScanFlat | ept/infrastructure/formats/stac/item.py:192-211 | the scan with its overwritten minimum gives the specified flat list |
| Geometry.PositionsAre | ept/infrastructure/formats/stac/item.py:192-201 | the positions of a geometry are the lists that start with two numbers, at any nesting, and nothing is looked for inside them |
| Geometry.GeometryBbox | ept/infrastructure/formats/stac/item.py:186-217 | the box of the flat list is that of the scanned points; none without positions |
| Geometry.BoxIsExactIffLimitsSurvive | ept/infrastructure/formats/stac/item.py:186-217 | the lower corner is exact, the box stays inside the true one, and is the true one if and only if a position that is not overwritten reaches each upper limit |
| Geometry.OpenLineLosesItsStart | ept/infrastructure/formats/stac/item.py:202-210 | a line whose box is not its true box |
| Geometry.RingBoxIsExact | ept/infrastructure/formats/stac/item.py:186-217 | the box of closed rings, nested to any depth, is the true box |
| Geometry.PolygonInvertsFlatBox | ept/infrastructure/formats/stac/item.py:159-183 | an ordered box of four values comes back from its polygon |
| Geometry.PolygonInvertsSolidBoxIff | ept/infrastructure/formats/stac/item.py:168-183 | the 2D corners of an ordered box of six values come back if and only if east, north and top are equal |
| BoxUnion.UnionIsLeastCover | ept/features/stac_collection_tree/service.py:431-448 | the union covers every box (flat when dimensions are mixed) and lies in every box that does |
| BoxUnion.UnionIgnoresOrder | ept/features/stac_collection_tree/service.py:431-448 | reordered boxes have the same union |
| BoxUnion.UnionOfUnions | ept/features/stac_collection_tree/service.py:431-448 | the union of all boxes is the union of the unions of any two non-empty parts, mixed dimensions included |
| BoxUnion.ExtentCoversItems | ept/features/stac_collection_tree/service.py:378-402 | the extent of a collection covers every item with a known box, vertically too when all are solid |
| ArcoAssets.UniqueAssetKey | ept/features/arco_stac_item/service.py:269-280 | a collision gets the smallest free number from two on, which is at most one above the number of taken keys; a re-pointed source keeps its key |
| ArcoAssets.Item.StaleGeneratedKeys | ept/features/arco_stac_item/service.py:236-257 | the existing keys that are declared keys or numbered variants of them |
| ArcoAssets.SurvivorsAre | ept/features/arco_stac_item/service.py:236-257 | an asset survives with its value unless the run overwrites and its key is that of an output, or that with a dash and digits behind it |
| ArcoAssets.Item.ConvertAssets | ept/features/arco_stac_item/service.py:64-81 | the asset map and the keys after removing stale entries, if asked to, and entering every output |
| ArcoAssets.InUseIff | ept/features/arco_stac_item/service.py:72-81 | a key is in use before an output is named exactly when it was taken at the start, is declared by an earlier output, or is next behind a declared key and numbers that were all in use |
| ArcoAssets.KeysDifferIffNoClash | ept/features/arco_stac_item/service.py:72-81 | the outputs get different keys if and only if none re-points its source under a key that an earlier output has, in terms of the outputs and the taken keys |
| ArcoAssets.KeptSourcesClashIff | ept/features/arco_stac_item/service.py:275-276 | where the re-pointed sources are assets, as without overwriting, the keys differ if and only if no two outputs re-point one source |
| ArcoAssets.FreedSourcesClashIff | ept/features/arco_stac_item/service.py:68-76 | where no declared key is taken, as when overwriting, the keys differ if and only if no output re-points its source under a key in use |
| ArcoAssets.OverwritingFreesDeclaredKeys | ept/features/arco_stac_item/service.py:68-71 | an overwriting run leaves no declared key taken |
| ArcoAssets.NothingIsLost | ept/features/arco_stac_item/service.py:64-81 | on any outputs: a surviving asset stays unless an output re-points it without overwriting, each given key holds the last output under it, and every output has an entry of its own if and only if none clashes |
| ArcoAssets.LayersOfParquetClash | ept/features/arco_stac_item/service.py:182-233 | an asset named parquet that is converted into two layers keeps the second only, with and without overwriting |
| ArcoAssets.UploadOverNumberedLayer | ept/features/arco_stac_item/service.py:64-81 | an overwriting run that uploads an asset named parquet-2 after two layers loses the second layer |
| ArcoAssets.RepeatedOverwriteIsStable | ept/features/arco_stac_item/service.py:64-81 | repeating an overwriting run with the same outputs leaves the asset map unchanged |
| LogStore.EveryRunHoldsNewest | ept/infrastructure/utils/monitoring.py:112-154 | after any emits and clears the rows are the newest events since the last clear, at most the capacity, numbered consecutively, and size plus dropped is their number |
| LogStore.RowNumbersOnlyGrow | ept/infrastructure/utils/monitoring.py:112-154 | row numbers are never used again, not even after a clear |
| LogStore.PageIsNewestMatches | ept/infrastructure/utils/monitoring.py:193-202 | a page lists the first matches by time and number, descending, each once, as many as the limit allows, and every other match comes after them; a negative limit gives all |
| LogStore.NewestPageIsUnique | ept/infrastructure/utils/monitoring.py:193-202 | no other list has these properties |
| LogStore.MatchesIff | ept/infrastructure/utils/monitoring.py:168-190 | an event matches exactly when it meets each criterion that is set: level, logger pattern, tag, time, and a text that one of its four texts contains, without case |
| LogStore.LoggerPrefixIsPrefixIff | ept/infrastructure/utils/monitoring.py:172-174 | the logger criterion is a prefix test without case if and only if the prefix holds no wildcard |
| LogStore.LogBuffer.Emit | ept/infrastructure/utils/monitoring.py:119-154 | the table after an emit is the specified one and holds the newest of the events since the last clear |
| LogStore.LogBuffer.Clear | ept/infrastructure/utils/monitoring.py:112-117 | clearing empties the table, resets the count of dropped rows and keeps the row numbers going |
| LogStore.LogBuffer.Search | ept/infrastructure/utils/monitoring.py:156-216 | gives the events of the newest matching rows, in order, each once and as many as the limit allows, and the number of all matching rows |
| Sequences.FirstSeenIs | ept/features/validate_stac/service.py:331-347 | the keys of a table in the order of their insertion are the elements at the places where they occur for the first time |
| Sorting.SortSorts | ept/features/job_runner/manager.py:181-184 | sorting orders the elements and keeps each as often as it occurred |
| Sorting.SortIsStable | ept/features/stac_catalog_tree/service.py:303-303 | elements that tie keep their order |
| Sorting.TextLeqIs | ept/features/stac_catalog_tree/service.py:303-303 | one id comes before another when it is a beginning of it or has the smaller character where they first differ |
| Sorting.FilterIs | ept/features/stac_find/service.py:256-257 | filtering keeps the wanted elements, all of them and in order |

## Left out

- HTTP transport, retries, redirects, authorisation, S3 and file access: `fetch`, `read`, `get`, `join` and the same-host test are pure parameters.
- Schema validation and the judging of one object: a parameter that may reject or lists issues.
- The text of messages, logs and API models; the warnings of the two exporters about renamed ids and paths.
- StacObjects.Doc: ids are text. The source writes a null or numeric id into URLs as it is, and a numeric one makes building the report node raise.
- TreeFiles.Folded: a path that is at the same time the folder of another one, where a local write fails, and files that were there before.
- CatalogExport.KeptLinks: links are a list; a truthy value that cannot be iterated over makes the source raise while it copies the links.
- ValidationReport.FlattenResults: the number of nested calls that the runtime allows is a parameter; deeper reports are rejected as `TooDeep`, where the source raises.
- ArcoAssets.Item.StaleGeneratedKeys: gives a set; the source sorts it before deleting, which has no effect on the result.
- ArcoAssets.Item.ConvertAssets: takes a map of assets; an item whose `assets` is null makes the source fail when it enters the first output.
- JobRunner.RunManager.Submit: the uniqueness of generated run ids is assumed, and ids of dropped runs are not issued again.
- The lookup and listing of runs by owner are reads without further state.
- JobRunner.FeatureRun.Cancel: how long the caller waits for the task is not modelled; the end of its asyncio task is an event of its own.
- Paths.RelpathLeadsBack: paths below a common origin; a path that climbs above it is not part of the layouts written here.
- CatalogImport.ResolveHref: local paths only; web and S3 addresses, and links with a scheme, are not part of this model.
- Item paths that coincide inside one collection of a catalog export are not checked by the source and not excluded here; links then lead to one of the files.
- Names are ASCII text; other alphabets and their case folding are not modelled.
- CatalogWalk.FindCatalog: the root path, the depth cap and the reduction of an href to a path are parameters.
- Geometry.GeometryBbox: numbers are reals, so rounding, infinities and not-a-number values are not modelled.
- LogStore.Matches: the search criteria work on ASCII text; fields are one text, as they are stored.
- An existing database file at start, and several threads at the log store, which its lock serialises.
- The union of time intervals: missing bounds are dropped by the source, so no cover can be stated.
- Reading the format and layout of Zarr, Parquet and NetCDF data, and the registry of features and conversions.
