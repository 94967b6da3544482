# A verified model of the crawler's core

This project models, in Dafny, four parts of the distributed crawler and proves what they promise.

**The crawl engine.** One scheduler goroutine holds two first-in-first-out queues and one request in hand.
It serves any number of workers, the goroutines that push requests, and a result handler, over unbuffered
channels; workers share a visited table and a failure table behind two locks. `Engine.dfy` is a step
system: a step is one rendezvous, one lock section, or one step local to a goroutine, and every worker has
an explicit program counter. What a fetch and a parse return is an input of the step, so every result
holds for every answer of the network, every interleaving, every number of workers and every Reload
setting. `Scheduler.dfy` treats the scheduler alone: its steps, the loop as a class, and a refinement of it
by a single arrival-ordered list. `Engine.RunProjects` carries scheduler results into whole crawls.
`EngineWorker.dfy` has the shared tables and the worker's loop body as a class, and shows that the body is
a run of the step system. `EngineInvariant.dfy`, `EngineTermination.dfy`, `EngineKeys.dfy`,
`EngineCeiling.dfy`, `EngineDrain.dfy`, `EngineDedup.dfy` and `EnginePriority.dfy` hold the results about
runs.

**The master's resource allocator.** `Master.dfy` has the master, its nodes, its resources and the
key-value store as mutable objects; a reassigned resource is the very object the map holds. `Ledger.dfy`
has the same state as values, with the properties of every run of operations: agreement of map and store,
handover to another master, and payloads in step with assignments. `Placement.dfy` proves that least-loaded
placement is optimal. `Identifiers.dfy` has the composite identifiers and when they come apart again.

**The batching SQL store.** `SqlText.dfy` builds the statements with trailing separators that are trimmed,
as the SQL layer does, and proves them equal to the joined forms, with readers that recover what was
rendered. `SqlStorage.dfy` has the buffer, the flat argument list and the order of database calls.

**The proxy switcher.** `Proxy.dfy` has the wrapping 32-bit ticket and its fairness.

`Spider.dfy` has requests and tasks; `Sums.dfy` and `Text.dfy` are helpers.

## How the state is written

- Depths and priorities are integers; the one addition the code makes on a depth wraps as an int64 does.
- The digest behind the dedup key is an arbitrary function of URL and method, so results hold whatever
  collides.
- Ids, the clock and the outcomes of store calls are functions of the number of the call.
- Histories (what was accepted, delivered, created, how requests ended) are kept beside the state of the
  engine, and the calls made to the database beside the state of the store, so that runs can be talked about.

## Where the code and what it promises part

- The visited table does not stop two workers from fetching one key: the look-up and the mark are separate
  lock sections. `EngineDedup.FetchedOnceIffSequential` shows that the promise is kept exactly by one
  worker, with the interleaving that breaks it in `EngineDedup.TwoWorkersFetchTwice`.
- Depth is an int64, and at a MaxDepth of the largest int64 it wraps around under the limit.
  `EngineCeiling.AlwaysEndsIff` says exactly which tasks still always end there: those whose pages have no
  children, and those without Reload whose pages have at most one child, given a digest with finitely many
  values. With two children per page even a task without Reload need not end, because two workers can keep
  racing on one key.
- `Flush` leaves the buffer as it is, although storage/sqlstorage/sqlstorage_test.go:62 expects it empty
  afterwards. The model follows the code: `SqlStorage.BufferOnlyGrows` says what follows, and
  `SqlStorage.SentOnceIffFewCells` when each row is still sent only once.
- `reAssign` changes the objects in the map before the put, so a failing put leaves map and store apart
  (`Ledger.ReassignmentAgreesIffPutsSucceed`) and the new node uncharged for the resource
  (`Ledger.ReassignmentDrift`).
- Adding a name that a live node already holds charges a second unit: `Ledger.AddDrift`, and over whole
  runs `Ledger.RunsDrift`.
- The depth wraps, so a child of a request at the largest int64 lies at the smallest: `Spider.ChildIsOneDeeper`.
- The rotation of proxies is disturbed at the wrap of the ticket unless the number of proxies divides 2^32:
  `Proxy.RotationIffDivides`.

## Model

| member | source | states |
|---|---|---|
| Spider.ParseJSReg | spider/request.go:36-56 | one GET child per match, in order, with the parent's task, the match as URL, the given rule, and depth one more than the parent's, or the smallest int64 below the largest |
| Spider.ChildIsOneDeeper | spider/request.go:46-52 | a child is exactly a request of the same task one level deeper, with the wrap of an int64 |
| Spider.KeySeparates | spider/request.go:109-113 | with a digest that confuses no two texts, two requests share a key exactly when URL and method read the same one after the other; so on one URL methods decide, and with one method URLs |
| Scheduler.EveryRunConserves | engine/schedule.go:203-243 | in every reachable state each class of accepted requests is, in order, those that left, the one in hand, and its queue; delivered are exactly those that pass the check, in order; at the select an empty hand means empty queues and a held request has passed the check |
| Scheduler.StepConserves | engine/schedule.go:203-243 | every single step keeps that invariant |
| Scheduler.SettleReachesSelect | engine/schedule.go:206-228 | from the loop head the check-and-continue loop reaches the select, within one iteration per queued or held request plus one |
| Scheduler.StepRefines | engine/schedule.go:203-243 | one step of the two queues is one step of a single arrival-ordered list, and each side can take it when the other can |
| Scheduler.QueuesRefineList | engine/schedule.go:203-243 | on every run the scheduler delivers and holds what a single list does from which the first positive-priority request is taken, else the oldest |
| Scheduler.BoundedInversion | engine/schedule.go:207-241 | a positive-priority request accepted behind j queued ones sees at most one ordinary and at most j+1 deliveries before it leaves, whatever arrives later |
| Scheduler.StillInsideMeansQueued | engine/schedule.go:207-241 | until it leaves, that request is in hand or in the priority queue at the place its number says |
| Scheduler.LoopIsRun | engine/schedule.go:205-242 | the goroutine's loop, driven by what its selects do, is a run of the step system that receives exactly the accepted requests, in order, and sends once for every delivery |
| Scheduler.LoopAccepts | engine/schedule.go:230-236 | over any choices the loop accepts exactly the requests its accepting choices name, in order |
| Scheduler.LoopStep | engine/schedule.go:203-243 | what each choice does after any choices before it: an accepted request is recorded and nothing is delivered; a ready worker gets the first request within its depth limit among the one in hand, the priority queue and the ordinary queue, in that order, and nothing when there is none |
| Scheduler.Schedule.ToSelect | engine/schedule.go:206-228 | the picking and checking iterations on the real fields end at the select, in the state the step system gives |
| Scheduler.Schedule.Run | engine/schedule.go:203-243 | the imperative loop over the two queues, the held request and the channel variable ends in the state of Loop on the choices made, and has accepted exactly their requests; LoopStep says what each choice did |
| Engine.StepProjects | engine/schedule.go:186-243 | an engine step is one enabled scheduler step, or leaves the scheduler alone |
| Engine.RunProjects | engine/schedule.go:177-243 | every run of a whole crawl is, seen from the scheduler, a run of the scheduler, so its results hold in every crawl |
| EngineInvariant.StepKeepsPushAccounted | engine/schedule.go:186-190 | per request, all that was handed to a Push is still to be sent or was accepted |
| EngineInvariant.StepKeepsWorkAccounted | engine/schedule.go:273-335 | per request, all that was delivered is held by a worker or has ended in exactly one way |
| EngineInvariant.StepKeepsLockHeld | engine/schedule.go:371-386 | the failure lock is held exactly by the worker blocked in Push under it |
| EngineInvariant.StepKeepsDepthSafe | engine/schedule.go:273-288 | every request a worker holds is within its depth limit, so the worker's own check rejects nothing |
| EngineInvariant.StepKeepsRetryOnce | engine/schedule.go:371-386 | each key is retried at most once, and the failure table has exactly the keys that failed |
| EngineInvariant.RunKeepsInv | engine/schedule.go:177-386 | all of these hold in every reachable state of every crawl |
| EngineTermination.ChildrenWeighLess | engine/schedule.go:314-333 | the children of one parse weigh less together than their parent |
| EngineTermination.FirstFailureDrops | engine/schedule.go:380-384 | a first failure lowers the potential by more than the retry weighs |
| EngineTermination.StepProgresses | engine/schedule.go:186-386 | no step raises consumption plus potential, and each lowers the potential or, at equal potential, the position in the pipeline |
| EngineTermination.RunIsBounded | engine/schedule.go:186-386 | from any reachable state, bounds on further requests consumed and on further steps |
| EngineTermination.CrawlIsBounded | engine/schedule.go:246-386 | workers consume at most the sum over the seeds of (B+2)^(2*(MaxDepth+1-Depth)+1) requests, and the crawl makes at most a stated number of steps, for every interleaving, number of workers and Reload setting, when MaxDepth is below the largest int64 or pages have no children |
| EngineTermination.OneSeedIsBounded | engine/schedule.go:273-386 | for one seed within its depth limit workers consume at most (B+2)^(2*(MaxDepth+1-Depth)+1) requests, written out |
| EngineTermination.StepKeepsTasked | spider/request.go:46-52 | children and retries stay with the task they came from |
| EngineKeys.StepAdvances | engine/schedule.go:186-386 | with at most one child per page and no Reload, no step raises outstanding requests plus possible retries plus unmarked keys, and each step lowers that, a stale mark, or the way to the next mark |
| EngineKeys.KeysRunOut | engine/schedule.go:289-386 | so such a crawl makes at most a number of steps fixed by seeds, workers and number of keys, whatever its depth limit |
| EngineCeiling.RaceTurns | engine/schedule.go:289-386 | two workers with requests of one key that failed before both pass the look-up; one parses two children with that key while the other fails and unmarks it |
| EngineCeiling.CeilingNeverEnds | spider/request.go:46-52 | at a MaxDepth of the largest int64, one worker on one seed makes arbitrarily many steps when the task reloads or keys never run out, and two workers on two equal seeds when a page can have two children |
| EngineCeiling.AlwaysEndsIff | spider/request.go:100-106 | for every task: all its crawls end exactly when MaxDepth is below the largest int64, or pages have no children, or they have at most one, the task does not reload and the digest has finitely many values |
| EngineCeiling.EveryLevelIsReached | spider/request.go:46-52 | for every depth from 0 to MaxDepth some crawl from a seed at depth 0 delivers a request at that depth, when pages can have a child and the task reloads or keys never run out |
| EngineCeiling.NoLevelBeyond | spider/request.go:100-106 | in every crawl a delivered request is within the MaxDepth of its task |
| EngineDrain.BusyWorkerMoves | engine/schedule.go:371-386 | a busy worker can move when the scheduler is at its select, also one waiting for the failure lock while its holder is blocked in Push |
| EngineDrain.NoDeadlock | engine/schedule.go:177-386 | with at least one worker, every reachable state with anything outstanding has an enabled step |
| EngineDrain.StopsExactlyWhenDrained | engine/schedule.go:177-386 | a crawl can take no step exactly when nothing is queued, held, pushed, worked on or unsaved |
| EngineDrain.EveryCrawlDrains | engine/schedule.go:177-386 | from every reachable state, whatever the depth limit, some run drains the crawl, no longer than the measure of the same crawl without further children |
| EngineDrain.MaximalCrawlDrains | engine/schedule.go:177-386 | a run from the seeds cannot go on exactly when it has drained, and keeps within the step budget where CrawlIsBounded gives one |
| EngineDrain.DrainedAccounts | engine/schedule.go:186-386 | at the end every request pushed has exactly one outcome: dropped for its depth, skipped as visited, failed, broken in parsing, or parsed; dropped are exactly those over the limit |
| EngineDrain.RunAccountsItems | engine/schedule.go:333-352 | in every reachable state each item a parse returned is saved, with the handler or with a worker waiting for it; a drained crawl has saved as many as its parses returned |
| EngineDedup.StepKeepsSettled | engine/schedule.go:289-313 | a visited key that no non-reload worker is past its check on stays so at every step, and the step does not fetch it for a non-reload request |
| EngineDedup.VisitedStaysVisited | engine/schedule.go:289-377 | such a key stays visited for the rest of any run and is never again fetched for a non-reload request |
| EngineDedup.AloneFetchesOnce | engine/schedule.go:289-313 | with one worker a non-reload key is not fetched again after a fetch that did not fail |
| EngineDedup.TwoWorkersFetchTwice | engine/schedule.go:289-295 | with two or more workers there is a run that fetches one key twice |
| EngineDedup.FetchedOnceIffSequential | engine/schedule.go:289-295 | at most one successful fetch per key holds exactly for crawls with at most one worker |
| EngineDedup.RetriedAtMostOnce | engine/schedule.go:371-386 | over every run, the retry pushes made plus the one in progress number the keys of the failure table, no key is retried twice, and a key is in the table exactly when a request with it failed |
| EnginePriority.CrawlBoundsInversion | engine/schedule.go:186-243 | inside a whole crawl, a seed, child or retry of positive priority is overtaken by at most one ordinary request and j+1 in all |
| EngineWorker.Crawler.HasVisited | engine/schedule.go:354-359 | true exactly for visited keys, a missing key reading as not visited |
| EngineWorker.Crawler.StoreVisited | engine/schedule.go:361-369 | adds the keys of all given requests and no other |
| EngineWorker.Crawler.SetFailure | engine/schedule.go:371-386 | unmarks the key of a non-reload request, and records it and asks for a retry exactly on the first failure of the key |
| EngineWorker.Crawler.Work | engine/schedule.go:281-334 | one undisturbed turn by cases: nothing changes for a request too deep or already visited; with a body of at least 6000 bytes its key is marked and its parse result is passed on; a failed fetch or a shorter body unmarks a non-reload key, and on the key's first failure records the request and goes on to push it again |
| EngineWorker.TurnIsRun | engine/schedule.go:281-334 | the steps of an undisturbed worker change the crawl exactly as that turn says, including the failure lock it goes on to hold, and nothing else |
| EngineWorker.BothPassTheChecks | engine/schedule.go:289-295 | two workers with unfiltered requests can both pass their tests before either marks its key |
| EngineWorker.RepushRun | engine/schedule.go:378-384 | the push made under the failure lock reaches an idle scheduler's hand and releases the lock |
| EngineWorker.DeliverRun | engine/schedule.go:186-243 | through an idle scheduler a pushed request within its depth reaches a waiting worker, and nothing else changes |
| Placement.NoPlacementBeats | master/master.go:340-358 | no placement of k units on n nodes ends below max(M, ceil((S+k)/n)) |
| Placement.GreedyMax | master/master.go:313-358 | least-loaded placement ends at exactly that maximum |
| Placement.GreedyIsOptimal | master/master.go:313-358 | so no placement of as many units has a smaller maximum |
| Placement.GreedySpread | master/master.go:340-358 | the gap between two nodes never exceeds the initial gap or one |
| Placement.CeilBounds | master/master.go:340-358 | the ceiling used above is the least number whose n-fold covers the total |
| Identifiers.PathsDiffer | master/master.go:298-300 | different names have different store paths, each the prefix "/resources/" and the name |
| Identifiers.NodeIDRoundTrip | master/master.go:443-450 | the node id comes back from an assignment exactly when it has no bar character |
| Identifiers.NodeIDIsBeforeBar | master/master.go:443-450 | the node id is the text before the first bar, and an error exactly when there is none |
| Identifiers.AssignmentSplits | master/master.go:326 | with a bar-free id, an assignment splits at its bars into the id and the pieces of the address |
| Identifiers.LeaderAddressRoundTrip | master/master.go:108-114 | the address comes back from a master id exactly when it has no dash and the id has none, or carries the same text after its first dash |
| Identifiers.MasterIDSplits | master/master.go:152-154 | with a dash-free id, a master id splits at its dashes into the word and the id, and the pieces of the address |
| Identifiers.NoLeaderAddress | master/master.go:108-114 | a text without a dash gives the empty address |
| Ledger.AgreementIsUnique | master/master.go:381-397 | the store determines the resource map that agrees with it |
| Ledger.DecodedAgrees | master/master.go:387-397 | decoding all values under the prefix gives the map that agrees with the store; election keys and JSON null contribute nothing |
| Ledger.LookupSpelledOut | master/master.go:399-408 | deletion and reload both read an assignment up to its first bar; without a bar deletion charges nobody, and reload and reassignment look up the empty id |
| Ledger.AdditionDrift | master/master.go:326-337 | an addition raises payload over assigned resources by one for the node that held the name, and for no other |
| Ledger.AddDrift | master/master.go:326-337 | so it keeps every live node's payload in step with its resources exactly when the name is not held by a live node |
| Ledger.DeleteDrift | master/master.go:62-84 | a deletion keeps every live node's payload in step |
| Ledger.RunsAgree | master/master.go:60-106 | after any run of successful and failed additions and deletions the resource map is exactly what the store decodes to |
| Ledger.HandoffKeepsResources | master/master.go:381-397 | a master that loads the store after any such run holds exactly the same resources |
| Ledger.RunsDrift | master/master.go:60-106 | within one set of live nodes, any run of additions and deletions raises each node's payload over its resources by exactly the successful additions under a name it held |
| Ledger.RunsKeepDriftIff | master/master.go:60-106 | so a run keeps all payloads in step exactly when no successful addition takes a name that a live node holds |
| Ledger.RunsKeepDrift | master/master.go:60-106 | in particular runs under names on no live node do |
| Ledger.AdditionsPlaceGreedily | master/master.go:313-358 | a run of additions is a least-loaded placement of the successful ones |
| Ledger.AdditionsAreOptimal | master/master.go:313-358 | a run of additions of which k succeed ends with the largest payload max(M, ceil((S+k)/n)), where M is the largest at the start, and no placement of k units has a smaller one |
| Ledger.ReassignmentCompletes | master/master.go:415-441 | with a live node and whatever the store answers, every resource ends on a live node, names are kept and resources on live nodes are untouched; each moved resource has the id and time of its call and the address of its new node; the store holds it as the map does where the put succeeded, and what it held before where it did not |
| Ledger.ReassignmentAgreesIffStored | master/master.go:326-335 | map and store still agree exactly when every put succeeded, ids being fresh |
| Ledger.ReassignmentAgreesIffPutsSucceed | master/master.go:415-441 | a whole reassignment keeps them in agreement exactly when nothing was stranded, or some node is live and the store takes every put |
| Ledger.ReassignmentDrift | master/master.go:415-441 | reassignment lowers each live node's payload against its resources by exactly the moved resources whose put was refused |
| Ledger.ReassignmentKeepsDriftIff | master/master.go:415-441 | so it keeps all payloads in step exactly when no node is live or every put succeeded |
| Ledger.ReassignmentPlacesGreedily | master/master.go:415-441 | its charged picks are a least-loaded placement, refused puts or not |
| Ledger.ReassignmentIsRun | master/master.go:415-441 | successful reassignment is a run of additions under names on no live node, so results about runs cover mixed runs |
| Master.SortByPayload | master/master.go:348-351 | a permutation of the candidates in order of payload |
| Master.Master.UpdateWorkNodes | master/master.go:252-272 | the live nodes become exactly those listed, each with its last listed address and zero payload |
| Master.Master.Assign | master/master.go:340-358 | a live node of least payload, or none exactly when there is none |
| Master.Master.AddResources | master/master.go:313-338 | rewrites the object with a new id and a least-loaded node, and then stores, maps and charges it exactly when the put succeeds |
| Master.Master.AddResource | master/master.go:99-105 | success is one ledger addition on a least-loaded node; failure leaves map, store and payloads unchanged |
| Master.Master.DeleteResource | master/master.go:60-86 | a missing name and a store error change nothing; otherwise one ledger deletion, also when the assignment names no node and an error is returned |
| Master.Master.LoadResource | master/master.go:381-413 | a failed query changes nothing; a successful one leaves the map with exactly what the store decodes to, in agreement with it when decodable keys carry their own path, and adds to every live node the number of resources assigned to it |
| Master.Master.TakeOver | master/master.go:244-272 | reading the registry and then loading charges every live node with exactly its resources |
| Master.Master.Strays | master/master.go:416-436 | the objects of the map on no live node, each once |
| Master.Master.Move | master/master.go:438-440 | addResources on an object the map holds changes map and object together, store and payload only if the put succeeds |
| Master.Master.ReAssign | master/master.go:415-441 | every stranded resource is rewritten in turn onto a node least loaded at that time, and stored and charged exactly when its put succeeds: the exact resulting map, store and payloads for every outcome of the puts |
| Master.Master.Answer | master/master.go:60-105 | an addition becomes exactly the ledger addition of this name, id, time and a live node's address when some node is live and the store takes the put; a deletion becomes the ledger deletion when the name is held and the store takes it; otherwise nothing changes |
| Master.Master.Serve | master/master.go:52-106 | any sequence of client calls on one master is a run of the ledger in which the k-th answer is what the k-th command asks for, or nothing exactly where nodes, store or name stand against it; the names held at the end are those the commands and the store's answers leave; map and store stay in agreement |
| Master.LastCommandDecides | master/master.go:60-105 | with a live node and a store that takes every call, a name is held in the end exactly when the last command about it was an addition |
| Master.NothingAdded | master/master.go:313-335 | without a live node, or with a store that refuses every put, no sequence of calls adds a name |
| Master.HandOver | master/master.go:244-272 | another master over the same store that takes over holds the same resources, with payloads equal to them |
| Master.FailOver | master/master.go:52-106 | and so it does after any sequence of client calls on the first one, however the store answered; the names both then hold are those the commands and the store's answers leave |
| SqlText.CreateTable | sqldb/sqldb.go:66-77 | the trimmed text is the statement with the definitions joined by commas, literal text included; no columns is an error |
| SqlText.DefinitionsSpelledOut | sqldb/sqldb.go:71-76 | the definitions are the generated key column when AutoKey is set, then title and type of each column in order |
| SqlText.Insert | sqldb/sqldb.go:100-114 | the trimmed and repeated text is the statement with titles and groups joined by commas, literal text included; no columns is an error, fewer than one row panics |
| SqlText.TrimTrailed | sqldb/sqldb.go:74-77 | cutting the last comma of pieces each followed by one leaves them joined |
| SqlText.TrimRepeat | sqldb/sqldb.go:112-113 | cutting the first comma of repeated groups leaves the copies joined |
| SqlText.InsertPlaceholders | sqldb/sqldb.go:100-114 | one placeholder per row and column when no name contains one |
| SqlText.GroupsRead | sqldb/sqldb.go:112-113 | the groups read back, placeholder by placeholder and comma by comma, as one group of as many placeholders as columns for each row |
| SqlText.InsertRoundTrip | sqldb/sqldb.go:100-114 | table, columns, and one group of as many placeholders as columns for each row come back from the text when names carry no separator |
| SqlText.CreateRoundTrip | sqldb/sqldb.go:66-77 | table, columns and the AutoKey choice come back exactly when AutoKey was set or the first column is not spelled like the generated key |
| SqlStorage.GetFields | storage/sqlstorage/sqlstorage.go:67-84 | columns exactly when the cell names a task and a rule that exist: each item field as MEDIUMTEXT in order, then URL and Time as VARCHAR(255) |
| SqlStorage.RowSpelledOut | storage/sqlstorage/sqlstorage.go:95-128 | for any cell: no rule comes before no task, then an unknown rule or data that is no map panics; otherwise argument j is the text of a text value, the JSON of another value, and empty for nil, an absent key or a value without JSON, followed by URL and Time where they are text |
| SqlStorage.FlattenAt | storage/sqlstorage/sqlstorage.go:90-130 | rows of one width lie at multiples of it in the flat list |
| SqlStorage.ArityIffComplete | storage/sqlstorage/sqlstorage.go:86-140 | for a buffer of one rule the number of arguments equals the number of placeholders exactly when every cell carries URL and Time |
| SqlStorage.RowMajor | storage/sqlstorage/sqlstorage.go:86-140 | for cells made by Output with map data, argument i*w+j is cell i's value of field j (its text, its JSON or empty), URL or time, and column j of the statement has the title and type that belong to it |
| SqlStorage.OutputRow | spider/request.go:22-34 | a cell made by Output renders to the value of each field (its text, its JSON or empty), then its URL and its time |
| SqlStorage.SQLStore.Flush | storage/sqlstorage/sqlstorage.go:86-140 | nothing exactly for an empty buffer, the error of the first bad cell, or one insert of all rows under the table and columns of the first cell, without a generated key; the buffer stays |
| SqlStorage.SQLStore.Gather | storage/sqlstorage/sqlstorage.go:95-131 | the flat list of all rows, or the row error of the first cell that has one |
| SqlStorage.SQLStore.RowValues | storage/sqlstorage/sqlstorage.go:104-127 | for each field in column order its text, its JSON, or empty for nil, an absent key or a value without JSON; then URL and Time when they are text |
| SqlStorage.SQLStore.SaveCell | storage/sqlstorage/sqlstorage.go:40-63 | one cell: table first, skip it if that fails, flush a full buffer, append; SaveSpelledOut gives every case |
| SqlStorage.SaveSpelledOut | storage/sqlstorage/sqlstorage.go:40-63 | every case of saving one cell: panic without a task or, with the table still to be created, under an unknown rule; a failed creation skips the cell; a full buffer is flushed, whose errors are ignored and whose panics are not; then the cell is appended |
| SqlStorage.SQLStore.Save | storage/sqlstorage/sqlstorage.go:39-65 | all cells in turn, up to the first panic |
| SqlStorage.PanicStays | storage/sqlstorage/sqlstorage.go:39-65 | after a panic the remaining cells change nothing |
| SqlStorage.SavesKeepTablesFirst | storage/sqlstorage/sqlstorage.go:39-65 | whatever fails, rows are only ever sent to a table created before |
| SqlStorage.SavesCreateOnce | storage/sqlstorage/sqlstorage.go:41-56 | whatever fails, the tables known are exactly those created, and none is asked for again after it was created |
| SqlStorage.BufferOnlyGrows | storage/sqlstorage/sqlstorage.go:39-65 | whatever creations, flushes and cells fail: every insert sends a prefix of the buffer, and row i is sent once for each save from the first that found the buffer full with the row in it, up to the first that found a cell that does not render |
| SqlStorage.BufferKeepsCells | storage/sqlstorage/sqlstorage.go:39-65 | no save takes a cell out of the buffer |
| SqlStorage.NothingSkipped | storage/sqlstorage/sqlstorage.go:39-65 | with creations that succeed and cells that render, every saved cell is in the buffer |
| SqlStorage.SentOnceIffFewCells | storage/sqlstorage/sqlstorage.go:54-62 | each row in the buffer is sent at most once exactly when the buffer, counted up to its first cell that does not render, holds at most max(BatchCount, 1) + 1 cells |
| Proxy.NewSwitcher | proxy/proxy.go:33-47 | one parsed URL per given URL, index zero; an error exactly for an empty list or an unparsable URL |
| Proxy.RoundRobinSwitcher.GetProxy | proxy/proxy.go:18-26 | for a list shorter than 2^32 the proxy at the old index modulo its length, the index advanced by one with wrap; beyond that the length truncates, to a division by zero at multiples of 2^32; the error for an empty list leaves the index |
| Proxy.GetProxies | proxy/proxy.go:18-26 | call k of consecutive calls on one switcher returns the proxy at (index + k) mod 2^32 modulo the list length; on a fresh switcher of distinct proxies an earlier one leads a later one by at most one call per completed wrap plus one, and as many calls as proxies inside a wrap return each once |
| Proxy.ChoicesAreFair | proxy/proxy.go:18-26 | the counts of the returned proxies, and not only of slots, are fair and rotate |
| Proxy.ServedSlots | proxy/proxy.go:18-26 | call t of a fresh switcher is served slot (t mod 2^32) mod n, however often the index wrapped |
| Proxy.GivenCounts | proxy/proxy.go:18-26 | the counts below are counts of the slots served |
| Proxy.FairAcrossWraps | proxy/proxy.go:18-26 | after N calls an earlier proxy leads a later one by between 0 and floor(N / 2^32) + 1 calls |
| Proxy.RotationInsideWrap | proxy/proxy.go:18-26 | n consecutive calls not crossing the wrap use every slot exactly once |
| Proxy.RotationIffDivides | proxy/proxy.go:18-26 | every n consecutive calls use every slot once exactly when n divides 2^32 |
| Proxy.BrokenWindow | proxy/proxy.go:18-26 | otherwise the window at the last full round before the wrap uses slot 0 twice |

## Left out

- HTTP fetching, encoding detection, regular expressions, the JavaScript VM, user agents, sleeping and rate limits: foreign code or I/O; what they answer is an input of the steps.
- etcd, the registry and gRPC: the store is a map whose calls may fail, the registry an arbitrary list of nodes.
- Leader election and request forwarding: `ready` is polled only every 20 seconds and `leaderID` is only set to the master's own id, so one active master at a time is assumed, and the branches that forward are not part of the model.
- `AddSeed`: its prefix query also finds names that extend the seed's name, so it may skip a seed; combined with a later load it charges resources twice.
- Fields no modelled code reads (a request's temporary data, a node's metadata) and logging.
- JSON: encoding and decoding are taken as inverse for resources, and a value's JSON form in a row is an input.
- The md5 digest and its hex form: an arbitrary function stands for it.
- Panics of a worker (a missing rule, a parse that panics), nil requests and registry nodes that are nil: rules are assumed to exist and parses to return.
- `Crawler.Schedule`: collecting the seeds of the configured tasks; the model starts from any list of seeds, pushed by one goroutine.
- Handing items of other types than data cells to the log, and `Save` blocking for good: saving an item is one step that returns.
- `workNodeDiff` compares two node maps for a log line; option setters fill structs; `DropTable` sends one fixed statement; `OutputJS` reports whether a pattern matches; command-line and deployment code wires the parts together.
- The order of a map iteration in `Assign`, `loadResource` and `reAssign`, and the order of equal payloads after sorting: left open, so results hold for every order.
- EngineTermination.CrawlIsBounded: gives its numbers for a MaxDepth below the largest int64 or pages without children; the other tasks that always end have their own bound (EngineKeys.KeysRunOut), and EngineCeiling.AlwaysEndsIff shows that no further task does.
- EngineDrain.EveryCrawlDrains: requires at least one worker, because without workers nothing is ever pulled.
- EngineWorker.Crawler.SetFailure: returns whether the request is to be pushed; the push itself, made under the failure lock, is the Repush step of the step system (EngineWorker.RepushRun).
- Ledger.RunsDrift: stays within one set of live nodes, and takes node ids without a bar character and assignments written by addResources, because updateWorkNodes resets payloads, a repeated load adds to them again, and other assignments are charged and released differently by the code.
- Master.Master.Serve: additions and deletions; a reassignment with successful puts is a run of the same kind (Ledger.ReassignmentIsRun).
- Ledger.ReassignmentAgreesIffPutsSucceed: takes newly generated ids to differ from those in use, which is what the snowflake generator is for.
- Master.Master.LoadResource: claims agreement for stores whose decodable keys carry their own path, which every run of a master keeps (Ledger.RunsAgree).
- SqlStorage.ArityIffComplete: buffers of one task and rule only, because Flush uses the first cell's table and columns for all rows.
- SqlText.InsertRoundTrip: names without the separators of the text, because the statement does not quote them.
- SqlText.CreateRoundTrip: names and types without the separators of the text, for the same reason.
- Proxy.RoundRobinSwitcher.GetProxy: one call at a time; the only shared write is an atomic addition, so concurrent calls amount to some order of calls.
