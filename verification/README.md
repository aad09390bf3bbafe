# Verified model of the mining store, the chart core and four smaller cores

A Dafny model of the parts of this trading workbench whose correctness is hard to see from
any one function, with proofs about every input and every run:

- **Mining store and worker** (`Tables`, `Transactions`, `Outcomes`, `MiningStore`, `WorkerTurns`, `MiningWorker`, `GapIndex`,
  `GapGrid`, `Revisions`, `Evidence`, `Export`). The tables are fields of a class and each transaction
  is one method, proved against a function on the database. `Protocol` lets any number of
  workers, API calls, lease recoveries and crashes interleave, and `LeaseInvariants`,
  `CursorCoverage`, `RecordInvariants`, `RefillPriority`, `Pausing`, `Fairness` and `Reachable` prove
  what holds in every reachable state; `StoreOnDisk` runs the protocol and the file system together.
- **JSON Schema subtyping and data keys** (`JsonSchema`, `Compatibility`, `Completeness`, `DataKeys`, `KeyTightness`). The
  meaning of a schema is the validator of the module forms; the subtype test and the path
  resolution of the chart core are proved sound against it, and exact where the code is.
- **Zoned time input** (`CivilTime`, `ZonedTime`), **reusable module outputs**
  (`ReusableOutputs`), **graph cycle check** (`GraphCycles`), **worker supervisor**
  (`Supervisor`) and **portable SHA-256** (`Sha256`, `Sha256Constants`).

`dafny verify dfyconfig.toml` checks the whole project.

## What the proofs found

Statements that one might expect and that do not hold of the code are refuted by a lemma and
replaced by the exact condition, or by a sufficient one where the line below says so:

- A target schema with `const` or `enum` is compared soundly if and only if its primitive values
  pass its own sibling keywords (`ConstTargetExact`, `EnumTargetExact`). A source that is compared
  by shape is handled soundly if and only if structural keywords come with a `type`
  (`TypedSourceExact`).
- Keywords beside `allOf` or `anyOf` and overlapping `oneOf` branches make the subtype test unsound
  (`MixedAllOfIsUnsound`, `SeveralBranchesAreUnsound`, `OverlappingOneOfIsUnsound`). It is sound if and only
  if the branches imply what stands beside them, which for a bare `oneOf` means that they are disjoint
  (`AllOfTargetExact`, `AnyOfTargetExact`, `OneOfTargetExact`). This is proved for targets whose branches
  are themselves fine and within reach of a source: for `anyOf` and `oneOf` each branch may be bound to
  the target, for `allOf` some typed source that may be bound to it covers what the branches allow
  together, for example the strongest branch (`StrongestBranchCovers`).
- Property names that every JavaScript object inherits, such as `toString`, escape the validator when they
  are not declared. An object target is therefore sound if and only if its properties with such names
  accept everything, provided some typed source lets an object through without declaring them
  (`InheritedNameIsUnsound`, `ObjectTargetExact`, `OptionalIsPassable`).
- `PlainlySafe` is a recursive condition on the target that can be read off the schema and rules all of this
  out (`PlainlySafeIsSafe`).
- A member with an inherited name can be present and valid and yet resolve to nothing or to a schema that
  rejects it, and an accepted binding can deliver it (`InheritedMemberNeverResolves`,
  `InheritedBindingIsUnsound`). `StepExact` says for every schema and valid object when a step is right;
  for a plain shape it is wrong if and only if the name is undeclared and the additional properties are
  restricted, or the schema is taken for an array (`PlainStepExact`).
- The subtype test decides exactly whether all values of one schema are values of another when both spell out
  their types (`CompatibleExact`). It refuses some that would fit: object and array literals, even equal ones;
  a `const` without a type against its type; a property declared as `{}` against a source that does not
  declare it; a source of several types against an `anyOf` with a branch for each; an `allOf` source whose
  branches fit only together (`CompoundLiteralsAreRefused`, `UntypedConstIsRefused`, `EmptyPropertyIsRefused`,
  `SplitTargetIsRefused`, `NarrowedSourceIsRefused`).
- `items` beside a lone `additionalProperties` is taken for an array schema, so no member of a valid
  object resolves (`MistakenForArrayNeverResolves`, `MistakenForArrayAcceptsObjects`).
- Committing a page again leaves the version table unchanged if and only if the page does not give one
  identity two hashes (`RecommitExact`).
- The missing range of a gap is inverted if and only if its ends are less than two steps apart
  (`MissingRangeExact`); on a grid this does not happen (`MissingRangeCounts`).
- Two workers are ever alive if and only if some start was made with no monitor thread alive while `status()`
  reported a running worker; after a shutdown that raised this is reachable (`AtMostOneExact`,
  `FailedShutdownThenStart`).
- A reusable output that is confirmed without having been returned by an engine invocation skips
  the port check (`UncheckedConfirmation`), and so does one whose module changes it after it was checked
  and confirmed (`ChangedAfterwards`).
- Local times in years 0 to 99 never parse (`EarlyYearsNeverParse`), and in a zone with two offset changes near
  the target four corrections can miss an existing instant (`SeveralTransitionsCanFail`). At most one change
  near the target is sufficient, not necessary.
- Writing the files before the transaction is not enough by itself: without the single-writer lock a
  concurrent recovery takes the files of a page in flight
  (`WithoutTheLockEvidenceIsLost`).

## Model

| member | source | states |
|---|---|---|
| `GapIndex.RecordedIsWide` | mining/store.py:1096-1098 | the rounded estimate never hides a wide pair: the two-part test equals "more than 1.5 steps apart" |
| `GapIndex.EstimateIsNearest` | mining/store.py:1096 | the estimate of a wide pair is the nearest whole number of steps, less one |
| `GapIndex.RoundIsNearest` | mining/store.py:1096 | rounding goes to the nearest integer and from the middle to the even one |
| `GapIndex.MissingRangeExact` | mining/store.py:1118-1119 | the stored missing range is a proper range exactly from two steps on |
| `GapIndex.NeighbourhoodIsContiguous` | mining/store.py:1080-1093 | a pair adjacent among two predecessors and two successors is adjacent in the whole series |
| `GapIndex.NeighbourhoodSees` | mining/store.py:1080-1093 | every adjacent pair around a touched time is found from that time |
| `GapIndex.IncrementalIsExact` | mining/store.py:1057-1131 | if the touched times cover the change of the series, the incrementally updated gap table equals the from-scratch one, measurements included |
| `GapIndex.DistantRowsKept` | mining/store.py:1072-1079 | gap rows with no touched time between their ends are left untouched |
| `GapIndex.OtherJobsKept` | mining/store.py:1073-1077 | the recomputation leaves every other job's gap rows as they were |
| `GapIndex.StatusOutcome` | mining/store.py:1103-1131 | a gap that stays keeps a queued backfill, a new or reopened one is open, and one that is gone is resolved |
| `GapGrid.GapsFillTheGrid` | mining/store.py:1092-1125 | on a grid, times on record + estimated missing = (latest - earliest) / step + 1 |
| `GapGrid.IndexConservesTheGrid` | mining/store.py:1092-1125 | the same conservation law read off an exact gap table |
| `GapGrid.MissingRangesAreTheHoles` | mining/store.py:1118-1119 | a grid point in range is absent exactly when some unresolved gap's missing range contains it |
| `GapGrid.MissingRangeCounts` | mining/store.py:1096-1120 | each missing range on a grid is proper and holds as many points as estimated |
| `Revisions.ChainIsTheCollapsedLog` | mining/store.py:897-952 | the chain of an identity is its observations with consecutive equal hashes collapsed; only the last row is current, neighbours differ, is_final is the OR over its run, the address is the run's first |
| `Revisions.TableStep` | mining/store.py:897-952 | the row updates for one entry keep the table equal to the compressed log |
| `Revisions.CurrentRowIsLast` | mining/store.py:897-901 | the is_current=1 row of an identity is exactly its last revision |
| `Revisions.RowsAreCounted` | mining/store.py:1023-1026 | version rows = identities + revisions detected |
| `Revisions.RecommitExact` | mining/store.py:897-952 | recommitting a page is idempotent if and only if the page never contradicts itself |
| `Revisions.PageTimesAreCovered` | mining/store.py:859-904 | the event times handed to the gap index cover every change a page makes to the series |
| `Revisions.OtherTimesKept` | mining/store.py:897-952 | a page moves no other job's series |
| `MiningStores.MiningStore.PauseJob` | mining/store.py:518-535 | the transaction equals its function: an active job is asked to pause, another is paused at once |
| `MiningStores.MiningStore.ResumeJob` | mining/store.py:537-548 | the transaction equals its function: lease dropped, queued, due now |
| `MiningStores.MiningStore.RunNow` | mining/store.py:550-567 | the transaction equals its function: active jobs are left alone, paused ones refuse |
| `MiningStores.MiningStore.QueueRefill` | mining/store.py:1158-1199 | the transaction equals its function: refuses resolved gaps, reuses a pending refill, otherwise adds one |
| `MiningStores.MiningStore.RecoverExpiredLeases` | mining/store.py:569-594 | the loop over expired rows equals recovering all of them at once, refills included, and counts them |
| `MiningStores.MiningStore.ClaimNext` | mining/store.py:596-668 | the admission loop ends (each turn blocks one due job), refuses in order, and leases the first admissible due job with its oldest queued refill |
| `MiningStores.MiningStore.BeginActive` | mining/store.py:670-691 | records the active work only for the lease holder |
| `MiningStores.MiningStore.Transition` | mining/store.py:693-704 | changes status and renews the lease only for the holder of an active job |
| `MiningStores.MiningStore.Heartbeat` | mining/store.py:706-713 | renews the lease exactly when the worker still holds it |
| `MiningStores.MiningStore.RetryJob` | mining/store.py:715-747 | backs off, drops the lease and requeues the leased refills, for the holder only |
| `MiningStores.MiningStore.BlockJob` | mining/store.py:749-762 | blocks the job for the holder only, but fails its leased refills in any case |
| `MiningStores.MiningStore.ReleaseJob` | mining/store.py:764-782 | gives the job back and requeues its leased refills, for the holder only |
| `MiningStores.MiningStore.RecomputeGaps` | mining/store.py:1057-1131 | the loops over touched times, local pairs and touched gaps compute the gap table function |
| `MiningStores.MiningStore.RecordEntries` | mining/store.py:897-952 | the entry loop keeps the version table the compressed log, counts revisions and collects the touched times |
| `MiningStores.MiningStore.CommitPage` | mining/store.py:819-1055 | the whole commit transaction equals its function, or changes nothing when the lease is lost |
| `Outcomes.CreateOutcome` | mining/store.py:388-463 | a job is created exactly for a fresh id with valid schedule and step; it is queued, due now, free and at its initial cursor |
| `Outcomes.PauseOutcome` | mining/store.py:518-535 | an active job is only asked to pause, any other is paused, free of its lease and due now; history and work columns stay |
| `Outcomes.ResumeOutcome` | mining/store.py:537-548 | any job becomes queued, due now, unowned and unpaused, and nothing else of it changes |
| `Outcomes.RunNowOutcome` | mining/store.py:550-567 | refused exactly for unknown and paused jobs; active ones stay, others become due |
| `Outcomes.QueueRefillOutcome` | mining/store.py:1158-1199 | accepted exactly for an unresolved gap of the job; a pending refill is reused, otherwise one is queued and the job is due |
| `Outcomes.RecoverOutcome` | mining/store.py:569-594 | exactly the active jobs without a valid expiry are freed, to retry or paused, with their leased refills queued again |
| `Outcomes.HoldingOutcome` | mining/store.py:670-713 | begin, transition and heartbeat succeed exactly for the holder in the right status, and renew the lease |
| `Outcomes.DelayOutcome` | mining/store.py:731-733 | Retry-After is obeyed; otherwise the delay doubles from 1 to 512 seconds; jitter is added |
| `Outcomes.RetryOutcome` | mining/store.py:715-747 | the holder's retry counts the failure, waits out the delay or pauses, and queues leased refills again; others' retries change nothing |
| `Outcomes.BlockOutcome` | mining/store.py:749-762 | the holder's block keeps a pause request; leased refills of the job fail whoever asks |
| `Outcomes.ReleaseOutcome` | mining/store.py:764-782 | the holder's release queues or pauses the job, due now, with its leased refills queued again |
| `Outcomes.CommitGoesThrough` | mining/store.py:866-871 | a commit goes through exactly for the holder of a committing job |
| `Outcomes.CommitStatus` | mining/store.py:957-985 | paused, leased, succeeded or queued, each if and only if its own condition holds |
| `Outcomes.CommitRowOutcome` | mining/store.py:963-1022 | lease, work, run time, cursor, pause request and failure count of the job after a commit |
| `Outcomes.CommitRefillOutcome` | mining/store.py:992-1003 | a refill page finishes its refill or moves its cursor; no other refill row changes |
| `Protocol.ClaimHasEffect` | mining/store.py:596-668 | however many jobs an admission refuses, only the due refused jobs, the picked one and their refills change |
| `Outcomes.PickOutcome` | mining/store.py:607-650 | the picked job is leased to the worker in the status from which work begins, one attempt more, and no takeable job of an admitted provider comes before it; without a pick none is takeable |
| `Outcomes.ClaimedCanBegin` | mining/store.py:670-691 | the worker that got a claim can begin at once |
| `Outcomes.RefusalOutcome` | mining/store.py:614-642 | the refused jobs are takeable, of other providers, and end blocked and free with their waiting refills failed |
| `Outcomes.TakenRefillOutcome` | mining/store.py:651-660 | a claim takes the oldest waiting refill of its job and leases it to the worker, and none exactly when none waits |
| `Outcomes.UndisturbedClaimCommits` | mining/worker.py:175-248 | undisturbed, every step from a claim to a committed page succeeds |
| `LeaseInvariants.NoClaimStep` | mining/store.py:518-793 | no transaction but a claim changes a claim number, gives anybody a lease, or makes a job due earlier |
| `LeaseInvariants.LeaseInvStep` | mining/store.py:518-793 | every event keeps: active exactly when owner, expiry and heartbeat are set; owners work on the job in its latest claim or are dead; pages in claim order |
| `LeaseInvariants.LeasesHoldOnEveryRun` | mining/store.py:518-793 | that invariant over every run |
| `LeaseInvariants.DroppedLeaseNeverCommits` | mining/store.py:866-872 | once a lease is dropped, however, every later page of the job belongs to a later claim |
| `CursorCoverage.CursorInvStep` | mining/store.py:987-1022 | every event keeps the main pages covering everything up to the stored cursor |
| `CursorCoverage.CursorsHoldOnEveryRun` | mining/worker.py:163-181 | over every run the main pages cover [origin, cursor) and the cursor is the next cursor of the last main page that had one |
| `RecordInvariants.RecordInvStep` | mining/store.py:859-956 | every event keeps the version table compressed and every gap index exact |
| `RecordInvariants.RecordsHoldOnEveryRun` | mining/store.py:859-956 | that invariant over every run |
| `RecordInvariants.GapIndexIsExactOnEveryRun` | mining/store.py:1057-1131 | in every reachable state the unresolved gaps of a job are exactly its adjacent current event times more than 1.5 steps apart |
| `RecordInvariants.VersionsAreTheLogOnEveryRun` | mining/store.py:897-952 | in every reachable state the version rows are the collapsed log, and rows = identities + revisions detected |
| `RecordInvariants.GridIsConservedOnEveryRun` | mining/store.py:1092-1125 | in every reachable state a gridded series and its recorded gaps fill the grid |
| `RefillPriority.OnePendingRefillOnEveryRun` | mining/store.py:1171-1197 | over every run each gap has at most one queued or leased refill |
| `RefillPriority.ClaimTakesRefill` | mining/store.py:651-660 | a claim of a job with a queued refill takes one of that job's refills |
| `RefillPriority.MainPageYields` | mining/store.py:957-985 | a main page that finds a queued refill gives the job back |
| `RefillPriority.QueuedRefillGoesFirst` | mining/store.py:957-985 | while a refill waits, at most one main page of its job commits before a refill is leased, none if the job was unclaimed |
| `Pausing.PauseHalts` | mining/store.py:518-535 | after a pause the job is paused or has a pause request |
| `Pausing.PauseStands` | mining/store.py:518-1022 | over every run without a resume of it, such a job stays so and no claim picks it |
| `Pausing.PauseTakesEffect` | mining/store.py:957-985 | over every run without a resume of it, such a job commits at most the one page already claimed |
| `Fairness.NobodyPassesTwice` | mining/store.py:607-668 | while a due job waits, every claim takes somebody ahead of it and nobody twice |
| `Fairness.BoundedBypass` | mining/store.py:607-668 | with an increasing clock a due, untouched, admissible job is passed at most once by each other job |
| `Reachable.EveryReachableState` | mining/store.py:518-1022 | from an empty database, over every interleaving: leases consistent, pages in one contiguous block per claim, cursors covered and latest, one pending refill per gap |
| `Reachable.LostClaimsStayLost` | mining/store.py:866-872 | at any point of any run, a claim that is over never commits again |
| `MiningWorkers.OthersAreTolerated` | mining/worker.py:88-119 | every event that is not the worker's own claim or commit is one the page loop is proved to tolerate |
| `MiningWorkers.OneMorePage` | mining/worker.py:217-229 | a page that passes the progress and fingerprint checks extends a chained run without repetition |
| `MiningWorkers.FetchAndCommit` | mining/worker.py:208-272 | the turn leaves the store, its ending and the committed page that its function gives; a finished turn leaves no lease, and the worker's pages grow by exactly the reported one |
| `WorkerTurns.AnswerOutcome` | mining/worker.py:211-272 | while the worker holds the job: blocked, invalid, stuck and repeated pages leave it blocked; retryable and other failures leave it waiting for a retry, or paused, due after Retry-After and jitter |
| `WorkerTurns.FetchedOutcome` | mining/worker.py:230-248 | a fetched page that makes progress is committed whenever the worker holds the committing job, and otherwise the job is retried |
| `WorkerTurns.LostOutcome` | mining/worker.py:203-210 | a turn that cannot begin commits nothing and retries only what the worker still owns |
| `WorkerTurns.StopOutcome` | mining/worker.py:197-207 | a stop or a pause request queues or pauses the job and fetches nothing |
| `MiningWorkers.ProcessJob` | mining/worker.py:157-281 | the run leaves the store and the pages its function gives; the pages the worker added are at most the configured number, chained, without repetition, and it holds no lease on any way out |
| `WorkerTurns.UndisturbedTurn` | mining/worker.py:196-248 | an undisturbed turn with more to come commits its page and goes on from its next cursor |
| `WorkerTurns.UndisturbedRun` | mining/worker.py:183-281 | undisturbed, with pages that keep coming, a run commits exactly the configured number |
| `Evidence.ReadLine` | mining/store.py:1201-1237 | skipping lines one by one reads the line of that number |
| `Evidence.LineReadsBack` | mining/store.py:846-848 | line n of a written page is exactly record n |
| `Evidence.NothingAfterTheRecords` | mining/store.py:846-848 | after the last record a written page has nothing more to read |
| `Evidence.EvidenceRoot.WriteAtomically` | mining/store.py:803-817 | afterwards the target holds the content and no other file changed |
| `Evidence.EvidenceRoot.RecoverOrphans` | mining/store.py:1272-1297 | exactly the unreferenced files are moved, contents kept, and counted; referenced ones stay |
| `Evidence.EvidenceSurvivesEveryRun` | mining/store.py:803-872 | temporary files are written piece by piece and renamed as they are; wherever a run fails or crashes, every committed page keeps both files unchanged and every observation its line |
| `Evidence.FlightNext` | mining/store.py:803-817 | what the temporary file holds is the content written so far, so the rename puts the whole content in place |
| `Evidence.AtomicWriteIsMoves` | mining/store.py:803-817 | an atomic write of either file of a page is the moves open, write, rename in a row, and changes that file only |
| `Evidence.RecoveryIsMoves` | mining/store.py:1272-1297 | orphan recovery is a sequence of single moves that leaves exactly the referenced files and can finish |
| `Evidence.WholePageOrNothing` | mining/worker.py:88-92 | after recovery under the lock a page is on disk and in the database, or in neither |
| `Evidence.VersionsReadBack` | mining/store.py:1201-1237 | the address of every version row reads back exactly the record of the observation of its identity that wrote the row |
| `Export.SelectRows` | mining/store.py:1245-1251 | exactly the current rows of the job, each once, by event time with missing times last, then by identity |
| `Export.ExportOrder` | mining/store.py:1248-1249 | rows without a time last, times ascending, equal times by identity text |
| `Export.FirstDifferenceDecides` | mining/store.py:1248-1249 | texts are ordered by the first place at which they differ |
| `Export.CurrentRowsNeverTie` | mining/store.py:1245-1251 | the order of the query leaves no choice |
| `Export.ExportRecords` | mining/store.py:1239-1270 | the export is the record of each of those rows, a line each, in that order |
| `Evidence.WithoutTheLockEvidenceIsLost` | mining/worker.py:31-56 | a recovery beside a page in flight leaves a committed page without its files |
| `StoreOnDisk.EveryRowHasItsEvidence` | mining/store.py:846-1022 | over every interleaving of the whole protocol with file writes, failures and crashes: every page row has both its files and every version row reads back its record |
| `StoreOnDisk.SoundOnEveryRun` | mining/store.py:846-1022 | database and disk stay linked page by page and observation by observation over every joint run |
| `Compatibility.CompatibleIsSound` | web/chart_core.js:403-470 | for typed sources and safe targets of any nesting: if the schemas are compatible, every accepted value of the source is accepted by the target |
| `Completeness.CompatibleExact` | web/chart_core.js:403-470 | on schemas that spell out their types at every level, the comparison is exactly containment of their values |
| `Completeness.Separates` | web/chart_core.js:429-470 | every refusal of such schemas has a value of the source that the target rejects |
| `Completeness.ObjectsSeparate` | web/chart_core.js:436-465 | so does a refusal by the object clauses: required names, properties, and the rest |
| `Completeness.TypesOnlyExact` | web/chart_core.js:429-434 | for schemas that only list types the comparison is containment, an integer being a number |
| `Completeness.AnyOfSourceExact` | web/chart_core.js:421-423 | a bare anyOf source is compatible exactly when all its values fit |
| `Completeness.OneOfSourceExact` | web/chart_core.js:421-423 | so is a bare oneOf source of disjoint branches |
| `Completeness.AllOfTargetDecides` | web/chart_core.js:424 | a bare allOf target takes a plain source exactly when all its values fit |
| `Completeness.BranchSuffices` | web/chart_core.js:420-427 | a source compatible with one branch is compatible with the whole anyOf or oneOf |
| `Completeness.BranchExact` | web/chart_core.js:425-427 | for a plain source one such branch is also necessary |
| `Completeness.ConstSourceExact` | web/chart_core.js:409-418 | a primitive const is compatible exactly with the const and the enum that list it |
| `Completeness.EnumSourceExact` | web/chart_core.js:411-417 | an enum of primitives is compatible exactly with the const and the enum that cover it |
| `Completeness.ForbiddenRequiredIsRefused` | web/chart_core.js:442-450 | a source that forbids a name it requires accepts no object and is refused |
| `Completeness.CompoundLiteralsAreRefused` | web/chart_core.js:409-418 | an object or array literal is compatible with no literal, not even an equal one |
| `Completeness.UntypedConstIsRefused` | web/chart_core.js:395-401 | a const without a type is refused by its own type |
| `Completeness.EmptyPropertyIsRefused` | web/chart_core.js:457-461 | a property declared as {} is refused to a source that does not declare it |
| `Completeness.SplitTargetIsRefused` | web/chart_core.js:425-427 | a source of two types is refused by an anyOf with a branch for each |
| `Completeness.NarrowedSourceIsRefused` | web/chart_core.js:420 | an allOf source is refused where only its branches together fit |
| `Compatibility.TypesAreSound` | web/chart_core.js:429-468 | the inferred type sets line up, and the clauses for the value's own kind were really compared |
| `Compatibility.MemberIsSound` | web/chart_core.js:436-465 | a member accepted under the source is accepted under the target |
| `Compatibility.ConstTargetExact` | web/chart_core.js:409-413 | a const target is sound if and only if its constant passes its siblings |
| `Compatibility.EnumTargetExact` | web/chart_core.js:414-418 | an enum target is sound if and only if each primitive value passes its siblings |
| `Compatibility.TypedSourceExact` | web/chart_core.js:395-401 | a source compared by shape is sound if and only if its structural keywords carry a type |
| `Compatibility.AllOfTargetExact` | web/chart_core.js:424 | an allOf target whose branches are fine by themselves and covered by a bindable typed source is sound for typed sources if and only if its branches together imply what stands beside them |
| `Compatibility.StrongestBranchCovers` | web/chart_core.js:424 | a typed branch compatible with all the others is such a source |
| `Compatibility.BranchesCoverThemselves` | web/chart_core.js:420-424 | for mutually compatible branches their own allOf is such a source |
| `Compatibility.AnyOfTargetExact` | web/chart_core.js:425-427 | an anyOf target is sound for typed sources if and only if each branch implies what stands beside them |
| `Compatibility.OneOfTargetExact` | web/chart_core.js:425-427 | a oneOf target is sound for typed sources if and only if each branch implies the rest; a bare one if and only if its branches are disjoint |
| `Compatibility.ObjectTargetExact` | web/chart_core.js:436-465 | an object target, required names included, is sound for typed sources if and only if its properties with inherited names accept everything, where those names can pass unchecked at all |
| `Compatibility.OptionalIsPassable` | web/chart_core.js:442-464 | in a target that accepts an object and whose required members may be bound to themselves, every optional name can pass unchecked |
| `Compatibility.BareIsSafe` | web/chart_core.js:424-427 | with nothing beside them, allOf and anyOf branches imply the whole schema |
| `Compatibility.PlainlySafeIsSafe` | web/chart_core.js:403-470 | bare combinators, oneOf branches of separate types and nothing asked of inherited names, at every level, make a target safe |
| `Compatibility.MixedAllOfIsUnsound` | web/chart_core.js:424 | a target with a keyword beside allOf that a compatible source violates |
| `Compatibility.SeveralBranchesAreUnsound` | web/chart_core.js:424 | the same for a target with several different branches |
| `Compatibility.OverlappingOneOfIsUnsound` | web/chart_core.js:425-427 | a target with two overlapping oneOf branches that a compatible source fails |
| `Compatibility.InheritedNameIsUnsound` | web/module_forms.js:135-147 | a target with a declared toString that a compatible closed source fails |
| `Compatibility.ApartTypesAreDisjoint` | web/module_forms.js:63-74 | branches with separate explicit types accept no common value |
| `DataKeys.LiteralAcceptsItself` | web/chart_core.js:253-266 | the schema built from a literal accepts it |
| `DataKeys.ChildIsSound` | web/chart_core.js:268-318 | a member of an accepted object whose name is not overlooked has a child schema, and it accepts the member |
| `DataKeys.StepExact` | web/chart_core.js:268-318 | for every schema and every valid object with the member: the child schema exists and accepts the member if and only if no keyword is mistaken for an array or misrules the name, branch by branch |
| `KeyTightness.ChildMeans` | web/chart_core.js:268-318 | for every schema, name and value: the resolved schema accepts exactly what the keywords leave open for the member |
| `KeyTightness.LiteralExact` | web/chart_core.js:253-266 | the schema of a literal accepts exactly the literal, up to key order and inherited names |
| `KeyTightness.LiteralIsExact` | web/chart_core.js:253-266 | without inherited names it accepts exactly the literal, up to the key order of objects |
| `KeyTightness.StepIsTight` | web/chart_core.js:268-318 | for shapes and allOf: the resolved schema accepts a value if and only if a valid object may hold it there |
| `KeyTightness.PathIsTight` | web/chart_core.js:320-346 | the same along a path of any length |
| `KeyTightness.AlternativesResolveExactly` | web/chart_core.js:268-318 | bare anyOf, and oneOf of disjoint branches, resolve to exactly the values a valid object may hold if their branches do |
| `KeyTightness.RoutesAgree` | web/chart_core.js:233-249 | a declared property has the same schema whether the declaration is expanded or followed |
| `KeyTightness.DeclarationsDecide` | web/chart_core.js:324-332 | a declared path keeps its declaration, a path outside the declared roots does not resolve, and any other is followed from its root |
| `DataKeys.PlainStepExact` | web/chart_core.js:268-318 | for a plain shape and a name some valid object has, resolving the member is sound if and only if the name is declared, not inherited, or the additional properties are unrestricted, and the schema is not mistaken for an array |
| `DataKeys.OrdinaryPathsAreClear` | web/chart_core.js:320-332 | a path without inherited names meets the condition of path resolution in every schema |
| `DataKeys.ChildStaysTidy` | web/chart_core.js:268-318 | child schemas keep the typing condition of their parent |
| `DataKeys.FollowPath` | web/chart_core.js:320-346 | the fold over the segments computes the recursive path schema |
| `DataKeys.PathIsSound` | web/chart_core.js:320-346 | a path that exists in an accepted value and is overlooked at no step resolves, and the schema found accepts the value found |
| `DataKeys.LookupIsSound` | web/chart_core.js:197-251 | an expanded declaration accepts whatever the data holds at its path |
| `DataKeys.ResolutionIsSound` | web/chart_core.js:320-346 | a present value under a declared root, reached by a declared path or one overlooked at no step, has a resolved schema that accepts it |
| `DataKeys.BindingIsSound` | web/chart.js:192-203 | an accepted binding of such a path never delivers a present value its port schema rejects |
| `KeyTightness.BindingExact` | web/chart.js:192-203 | a followed binding is accepted if and only if the port takes whatever the root may hold at the path |
| `DataKeys.InheritedMemberNeverResolves` | web/chart_core.js:268-318 | a closed object schema accepts a member toString and gives it no schema |
| `DataKeys.InheritedBindingIsUnsound` | web/chart.js:192-203 | for every inherited name, port and value the port rejects, an accepted binding that delivers the value |
| `DataKeys.MistakenForArrayNeverResolves` | web/chart_core.js:268-318 | items beside a lone additionalProperties gives no member a schema |
| `DataKeys.MistakenForArrayAcceptsObjects` | web/module_forms.js:76-148 | such a schema nevertheless accepts objects with members |
| `CivilTime.ReadingIsUnique` | web/chart_core.js:31-45 | two valid civil readings of one second are the same |
| `CivilTime.ReadingExists` | web/chart_core.js:31-45 | every second has a valid civil reading |
| `CivilTime.ReadingRoundTrip` | web/chart_core.js:31-93 | from year 100 on, the UTC conversion undoes the reading |
| `ZonedTime.ParseZoned` | web/chart_core.js:65-92 | the correction loop computes the four-step guess and accepts it only if it shows the input |
| `ZonedTime.GuessSettles` | web/chart_core.js:65-92 | with at most one offset change near the target, the fourth guess represents it if any instant does |
| `ZonedTime.ParseExact` | web/chart_core.js:65-92 | parsing succeeds if and only if some instant of the common era shows the local time, and returns such an instant |
| `ZonedTime.ParseInvertsFormat` | web/chart_core.js:56-92 | an unambiguous local time parses back to its instant |
| `ZonedTime.MinuteRoundTrip` | web/chart_core.js:56-107 | the range input gives back the minute of an instant whose local minute is unambiguous |
| `ZonedTime.EarlyYearsNeverParse` | web/chart_core.js:65-92 | years before 100 never parse |
| `ZonedTime.SeveralTransitionsCanFail` | web/chart_core.js:65-92 | in a zone that changes twice near the target, a local time that is shown does not parse |
| `ReusableOutputs.Module.Register` | strategy_devkit/module_sdk.py:318-357 | a new generation no earlier handle shares; exactly the slot's old handle stops being current |
| `ReusableOutputs.Module.Confirm` | strategy_devkit/module_sdk.py:385-389 | accepts exactly the current handle of its slot |
| `ReusableOutputs.Module.Invalidate` | strategy_devkit/module_sdk.py:391-394 | a new epoch in which no handle made so far is current |
| `ReusableOutputs.Module.FinishInvocation` | strategy_devkit/module_sdk.py:430-489 | exactly when an invocation succeeds and what it returns; when the check is skipped, those very outputs were checked and returned before, and what they held then passes |
| `ReusableOutputs.Module.Restore` | strategy_devkit/module_sdk.py:540-551 | a bad snapshot raises and keeps the handles; otherwise no handle made so far is current, whether or not the hook succeeds |
| `ReusableOutputs.Apply` | strategy_devkit/module_sdk.py:318-561 | after any call, also a change of registered outputs, a handle that was not current before is not current now, and what is returned on trust was checked before; outputs that are left alone still hold what was checked |
| `ReusableOutputs.Drive` | strategy_devkit/module_sdk.py:318-561 | over any sequence of calls from any state no (epoch, slot, generation) repeats and a refused handle stays refused; if the module leaves checked outputs alone, trusted outputs pass the port check |
| `ReusableOutputs.UncheckedConfirmation` | strategy_devkit/module_sdk.py:385-389 | whatever fails the port check, registered and confirmed without an invocation, is returned on trust by its module |
| `ReusableOutputs.ChangedAfterwards` | strategy_devkit/module_sdk.py:154-183 | outputs checked, confirmed and then changed are returned on trust although they fail the check |
| `GraphCycles.DependenciesOf` | web/module_graph_litegraph.js:565-575 | the dependency map is exactly the links between module nodes |
| `GraphCycles.StuckLeadsToCycle` | web/module_graph_litegraph.js:576-588 | where nothing is ready, every remaining node leads into a cycle |
| `GraphCycles.CheckOrder` | web/module_graph_litegraph.js:576-590 | the loop ends, reports a cycle if and only if there is one, and otherwise removed the modules in topological order |
| `Supervisor.InvNext` | mining/supervisor.py:35-83 | every step of controller, monitor or process that is not a start over a running worker keeps the invariant |
| `Supervisor.AtMostOneWorker` | mining/supervisor.py:35-83 | when start is never called after a shutdown that raised, at most one worker process is alive in every state of every interleaving |
| `Supervisor.AtMostOneExact` | mining/supervisor.py:35-124 | over every interleaving, at most one worker is ever alive if and only if no start spawned while status reported a running worker |
| `Supervisor.StartsAreSafe` | mining/supervisor.py:35-46 | unless the last shutdown raised, no start spawns over a running worker |
| `Supervisor.StartRuns` | mining/supervisor.py:35-55 | a start leaves a running worker and a watching thread, or changes nothing because a thread watches already |
| `Supervisor.DeadWorkerIsReplaced` | mining/supervisor.py:57-83 | a worker that died while nobody shuts down is replaced within five steps of the monitor |
| `Supervisor.MonitorEnds` | mining/supervisor.py:57-83 | during a shutdown whose worker has stopped the monitor ends by itself and spawns nothing |
| `Supervisor.ShutdownCompletes` | mining/supervisor.py:98-124 | a shutdown that finds worker and monitor stopped completes and forgets both |
| `Supervisor.ShutdownRaises` | mining/supervisor.py:109-119 | a shutdown whose worker does not stop raises and keeps the names and the request to stop |
| `Supervisor.ShutdownLeavesNothing` | mining/supervisor.py:98-124 | when shutdown returns normally nothing is alive and no thread can spawn |
| `Supervisor.NothingSpawnsLater` | mining/supervisor.py:98-124 | nothing is spawned later until start is called again |
| `Supervisor.StartExact` | mining/supervisor.py:35-96 | a start leaves two workers exactly when no monitor thread is alive and status reports a running worker |
| `Supervisor.FailedShutdownThenStart` | mining/supervisor.py:98-124 | that state is reachable after a shutdown that raised |
| `Sha256.PaddingIsInjective` | web/ui_sync.js:25-32 | two messages never pad to the same blocks |
| `Sha256.PaddingLayout` | web/ui_sync.js:25-32 | message, one bit, zeros and bit length, in the fewest whole blocks, as section 5.1.1 of FIPS 180-4 lays them out |
| `Sha256Constants.RoundConstants` | web/ui_sync.js:9-18 | each round constant holds the first 32 fractional bits of the cube root of its prime (section 4.2.2 of FIPS 180-4) |
| `Sha256Constants.InitialValue` | web/ui_sync.js:33-36 | each initial word holds the first 32 fractional bits of the square root of its prime (section 5.3.3 of FIPS 180-4) |
| `Sha256.RotationAgrees` | web/ui_sync.js:20-22 | the signed rotation agrees with the word rotation modulo 2^32 |
| `Sha256.TemporariesAgree` | web/ui_sync.js:47-52 | the two round temporaries, summed from signed numbers and reduced once, are those of section 6.2.2 of FIPS 180-4 |
| `Sha256.Pad` | web/ui_sync.js:25-32 | the filled buffer is the padding of section 5.1.1 of FIPS 180-4 |
| `Sha256.Expand` | web/ui_sync.js:39-44 | the words array is the message schedule |
| `Sha256.Compress` | web/ui_sync.js:45-55 | the loop over eight variables is sixty-four rounds |
| `Sha256.PaddedHexIsFixedWidth` | web/ui_sync.js:58 | padded text of a number is its fixed-width hexadecimal digits |
| `Sha256.HexIsInjective` | web/ui_sync.js:58 | different hash values print differently |
| `Sha256.PortableSha256` | web/ui_sync.js:24-59 | for every message shorter than 2^50 bytes the text is the SHA-256 digest of sections 5 and 6.2 of FIPS 180-4 |

## Left out

- SQLite internals, WAL, fsync and schema fingerprints: transactions and renames are taken to be atomic and durable.
- Clock: one reading `now` per transaction; Python floats are reals, so rounding of sums of seconds is not modelled.
- Providers: cursors are integers, a page fetched at c with next cursor n covers [c, n), and an overlap cursor is at most the checkpoint; HTTP, rate slots and record normalization are parameters.
- Gap ids: gaps are keyed by job and both ends, so collisions of the `.12g` text in `gap_id` are not modelled.
- Reporting columns: last_error, blocked_reason, events, manifests, worker health and every metric but revisions_detected.
- Transactions.CreateJob: a function only; the syntax of job ids, names and provider settings is not checked in it.
- MiningWorkers.ProcessJob: the sha256 of the raw page is represented by the raw text itself, so hash collisions are not modelled.
- Compatibility.CompatibleIsSound: `TargetSafe` asks the condition of every nested schema, also of one that no compatible source reaches; it is exact level by level for the kinds of target listed above.
- Compatibility.AllOfTargetExact: targets for which no typed source is compatible and covers the branches, such as those with an object constant that no source matches, are covered by soundness only.
- Completeness.CompatibleExact: schemas with a structural keyword but no type, inherited names, or combinators at the compared level are covered by the lemmas beside it only; targets that accept every value at some level are outside.
- KeyTightness.StepIsTight: for anyOf and oneOf a value may be possible at a name only together with other members, so there the exact statement is about some valid object (`AlternativesResolveExactly`).
- Sha256Constants.RoundConstants: that the listed primes are the first sixty-four is taken from their list.
- Compatibility.ObjectTargetExact: names for which no compatible typed source lets an object through are covered by soundness only.
- DataKeys.Resolve: a root that is not declared and whose name every object inherits does not resolve in the model; the code throws there, so that no binding to it is accepted either.
- Schema normalization: schemas are modelled after `normalizeSchema`; its exceptions on malformed schemas are left out, as are keywords outside the chart core's set.
- DataKeys.PathIsSound: object members only; array indexes and property names that contain a dot are left out.
- Numbers: JSON numbers are reals, so -0 and NaN are not modelled.
- ZonedTime.ParseExact: the target lies at least twice the largest offset after the start of year 100, and the pattern match on the text is left out.
- ZonedTime.MinuteRoundTrip: the offset does not change within the minute.
- ReusableOutputs.Apply: port values are opaque; `_ValidatedEngineInputs` and the port type check beyond names and required flags are left out.
- Evidence: temporary file names are numbers, and a renamed file is durable with its content; the ordering of list_records, which may tie, is left out.
- Supervisor: one controller thread; status() and the restart delay carry no state that matters here.
- The trade agent packages, dataset transfer, the engine service, chart drawing, forms rendering and UI sync sockets: request plumbing and drawing, with no state of the kind modelled here.
