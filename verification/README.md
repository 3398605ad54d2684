# A verified model of the sync, transfer and matching logic of an S3 desktop client

The program is a desktop browser for S3-compatible servers. Its sync feature lists two sides (buckets or
directories), plans what to create, update and delete, and works the plan off with concurrent transfer
and delete workers. Its transfer modal copies or moves objects one after the other and stops to ask
before it overwrites. This project models that logic in Dafny and proves what it keeps.

The parts build on one another:

- `GlobSegment`, `GlobPattern`, `GlobLaws`, `GlobLoss`, `GlobTrailing`: the path patterns of the sync
  filters. The two-pointer matcher with one remembered star is proved exact, in both slash modes, against
  two declarative readings of a pattern. For `**` the matcher is proved sound, and which patterns lose
  matches is settled for all: those that end in `**` and those that do not.
- `PathOrder`, `SyncPlanner`, `SyncFilters`, `SyncLowering`: from two listings to a sorted plan, and
  from the plan to a run plan of endpoints, strategies and byte totals.
- `SyncExecutor`: the executor as a class whose handlers change its counters in place, each proved equal
  to a step of a pure state machine. `SyncRuns` lets the environment return any task in flight, in any
  order, as a success or a failure, with the transfer limit edited freely between dispatches, keeps the
  requests every dispatch sends, and proves one invariant for every run. `SyncRunLaws` draws the laws from
  it; `StatusSums` holds the counting.
- `SyncListing`, `SyncStore`, `SyncConvergence`: both sides as stores of places (a bucket and key, or a
  file), how a listing turns places into relative paths, what runs do at the places the requests they sent
  name, by the strategies these carry, and the end-to-end theorem: which places hold what after a clean
  finished sync.
- `SyncGate`: planning, the guardrails and the delete confirmation, over every sequence of messages, with
  the listings and the planner as jobs that run beside the form and may outlive it.
- `TransferWizard`: the transfer modal over an abstract object store.
- `Multipart`: splitting a file into parts through a reader with short reads.
- `Calendar`: the civil date and time of a benchmark report.

Code that updates state in place is a class or a method with loops, proved against a specification
function; the laws are lemmas about those functions. Reads of files, listings, completions of network
requests, failures and what they leave behind are parameters over which every law is quantified.

Some properties one would expect are false of the code. For each there is a concrete case and the exact
condition under which the property holds:

- Patterns. A `**` pattern that does not end in `**` loses matches exactly when a segment after the first
  asks for anything but slashes or the first has a star after its last slash (`DoubleStarLosesMatchesIff`;
  `ShortestPrefixLosesMatches`, `AnyFileBelowTakesNone`). One that ends in `**` loses matches exactly when,
  past the first segment that asks for anything, some segment starts with a star and then a slash
  (`TrailingDoubleStarMissesIff`, `EmptyDirectoryIsMissed`), and never on a path without empty components.
  A directory followed by a slash and `**` also selects a file of that name and longer names
  (`DirDoubleStarVersusBelow`). The documentation comment at `src/app/transfer_ops.rs:360-362` says that
  `*` never matches `/`; the code lets it when the pattern has no `**`, and departs on exactly the texts it
  accepts with another number of slashes than the pattern (`SingleStarDepartsIff`,
  `SingleStarCrossesSlash`). The model follows the code.
- Convergence. A prefix is matched as text but joined with a slash, so a key that goes on after the prefix
  without one, or with one too many, is planned under another key. A clean finished sync leaves exactly
  the source's places if and only if no key that the destination lists and the patterns let through does
  (`KeyRoundTripsIff`, `PlacesConvergeIff`); `foobar/x` under the prefix `foo` survives every run
  (`SiblingSurvives`). When newer destination objects are skipped, a path converges exactly when the
  destination is not the newer (`SkipNewerConvergesIff`).
- The `running` flag. It says that every dispatch issued something (`RunningMeansEveryStepIssued`), not
  that something is in flight (`NotRunningWithWorkInFlight`). In a copy run with fixed limits the two
  agree exactly when transfers go one at a time (`RunningIsTruthfulIff`).
- The confirmation. A result of a listing or a planning that a reset left behind slips past an open
  confirmation (`LateResultEscapesConfirmation`); which results keep the confirmation true is settled
  (`GateKeptIff`), and without a reset while a job runs all do (`TidyIsHarmless`).
- The plan and its settings. Editing a setting while a plan is being made does not stop it. The plan is
  current exactly when nothing was edited between the two listings and the settings end with what each
  listing and the planner were given (`PlanIsCurrentIff`). An edit between the two listings drops the
  source's listing, and the plan then takes the source for empty (`EditBetweenListingsDeletesAll`); filters
  edited while the source is listed make it delete what both sides hold (`StaleFilterDeletesShared`).
- Consent. A copy in ask mode keeps every object exactly when it is checked for where it writes, or writes
  nothing, or writes back what is there (`AskIsSafeIff`): a server-side copy to another connection lands
  on the current one (`OtherConnectionStaysEmpty`), and an existence check that errs reads as absent
  (`ErringCheckOverwrites`, `MovedObjectSurvivesIff`). A later run asks first exactly when no answer for all
  to overwrite was given before (`AsksFirstIff`, `SecondRunDoesNotAsk`). An answer for all ends the
  questions, except of what is already under way (`AnswerForAllEndsQuestions`, `AnswerForAllIsFinal`).
  Consent and termination hold in every session
  (`NoOverwriteWithoutConsent`, `RunsEnd`); the accounts of a run are kept by every event except a
  list that comes back while a step is under way (`AccountsKeptIff`), which takes an answer given while
  that list is being prepared (`PromptIsCalm`, `TwoInFlightIff`, `RestartOverQuestionMiscounts`).
- Uploads. Over a file that shrank while it was being uploaded the upload loop never ends successfully,
  and ends at all only if a part is refused (`EndsIffLongEnough`).

## Model

| member | source | states |
|---|---|---|
| GlobSegment.MatchesIffCovered | src/app/transfer_ops.rs:431-469 | a pattern matches exactly when the text can be cut into one legal piece per pattern character, a star taking any run and every other character one, with no wildcard piece holding a slash when slashes are not allowed |
| GlobSegment.ReplacedBlockHasNoSlash | src/app/transfer_ops.rs:453-457 | why giving up at a slash is right: a block between stars that fits at two places a star can reach across holds no slash |
| GlobSegment.EarlierStarNeverNeedsMore | src/app/transfer_ops.rs:448-451 | once a later star is reached, no match needs an earlier star to swallow more, in both slash modes |
| GlobSegment.NoTextLeftForBlock | src/app/transfer_ops.rs:465-468 | at the end of the text, widening the last star cannot lead to a match |
| GlobSegment.WildcardMatchSegment | src/app/transfer_ops.rs:433-469 | terminates and answers true exactly when the pattern matches, for every pattern, text and slash mode |
| GlobPattern.SplitThenJoin | src/app/transfer_ops.rs:370-372 | cutting a pattern at `**` loses nothing, leaves no `**` in a segment, yields one segment exactly when there is none, and cuts every run of stars from the left |
| GlobPattern.CutIsUnique | src/app/transfer_ops.rs:370-372 | these properties leave one way to cut a pattern |
| GlobPattern.TrimmedOfSlashes | src/app/transfer_ops.rs:380-390 | trimming a segment takes all slashes off both ends and nothing else |
| GlobPattern.FindSegmentMatch | src/app/transfer_ops.rs:471-489 | the length of the shortest matching prefix, or none exactly when no prefix matches |
| GlobPattern.ShortestPrefixIsShortest | src/app/transfer_ops.rs:478-488 | the specification of the prefix search returns a matching length with no shorter match, or nothing when there is no match |
| GlobPattern.LocateFinds | src/app/transfer_ops.rs:399-421 | what the boundary search finds is a match inside the text, at the start of the rest or just after a slash |
| GlobPattern.LocateSegment | src/app/transfer_ops.rs:397-421 | the boundary search loop finds the same place as its specification |
| GlobPattern.PlaceSegment | src/app/transfer_ops.rs:380-422 | places one segment of a `**` pattern: the first at the start, later ones at a boundary, slash-only ones nowhere |
| GlobPattern.PlaceSegments | src/app/transfer_ops.rs:377-429 | the loop over the segments accepts exactly the texts in which all can be placed with at most slashes left over |
| GlobPattern.WildcardMatch | src/app/transfer_ops.rs:363-429 | the whole matcher agrees with its specification: substring without wildcards, one segment crossing slashes, or placement of the segments |
| GlobPattern.DoubleStarIsSound | src/app/transfer_ops.rs:377-429 | every accepted text of a `**` pattern has a witness: ordered disjoint matches of all trimmed segments at legal places, with only slashes left over unless the pattern ends in `**` |
| GlobPattern.EarlierMatchEndsFirst | src/app/transfer_ops.rs:397-421 | of two matches of one segment, the one starting before a slash ends no later than the one starting after it |
| GlobPattern.LocateIsEarliest | src/app/transfer_ops.rs:397-421 | if a segment fits at a boundary, the search finds it there or earlier and ends no later |
| GlobPattern.GreedyKeepsUp | src/app/transfer_ops.rs:377-423 | placing greedily never falls behind any placement at component starts |
| GlobPattern.TrailingDoubleStarIsComplete | src/app/transfer_ops.rs:377-429 | a pattern ending in `**` accepts every path without empty components in which its segments can be placed at component starts |
| GlobLaws.LiteralAcceptsIff | src/app/transfer_ops.rs:364-369 | a pattern without wildcards accepts exactly the texts in which its characters stand one after the other somewhere, each in either case |
| GlobLaws.LiteralMatchesItself | src/app/transfer_ops.rs:433-469 | a segment without wildcards matches itself and nothing else |
| GlobLaws.DirDoubleStarIsPrefix | src/app/transfer_ops.rs:377-429 | a directory followed by a slash and `**` accepts exactly the texts the directory name is a prefix of |
| GlobLaws.DirDoubleStarVersusBelow | src/app/transfer_ops.rs:356-362 | such a pattern means "below the directory" for a text exactly when the text is not the directory's name and does not go on after it with another character than a slash |
| GlobLaws.DirDoubleStarTakesItself | src/app/transfer_ops.rs:384-396 | a file of the directory's own name is accepted though it is not below it |
| GlobLaws.DirDoubleStarTakesLongerName | src/app/transfer_ops.rs:384-396 | `dirx` is accepted by the pattern for `dir` though it is not below it |
| GlobLaws.ShortestPrefixLosesMatches | src/app/transfer_ops.rs:405-411 | for `**` and then `a*`, the text `abc` has a witness and is rejected |
| GlobLaws.SlashCountDecides | src/app/transfer_ops.rs:433-469 | stopping wildcards at slashes is asking the text for as many slashes as the pattern has |
| GlobLaws.SingleStarDepartsIff | src/app/transfer_ops.rs:360-376 | a pattern with wildcards and without `**` departs from its documentation on exactly the texts it accepts with another number of slashes |
| GlobLaws.SingleStarCrossesSlash | src/app/transfer_ops.rs:373-376 | `*.txt` accepts `dir/file.txt` |
| GlobLoss.DoubleStarLosesMatchesIff | src/app/transfer_ops.rs:377-429 | a `**` pattern that does not end in `**` rejects some text that has a witness exactly when a segment after the first asks for anything but slashes, or the first has a star after its last slash |
| GlobLoss.NamedLastSegmentLosesMatches | src/app/transfer_ops.rs:377-429 | so every `**` pattern whose last segment asks for anything loses some match |
| GlobLoss.ClosedFirstSegmentIsKept | src/app/transfer_ops.rs:377-429 | if only a first segment without such a star asks for anything, every text with a witness is accepted |
| GlobLoss.GreedyFallsShort | src/app/transfer_ops.rs:397-423 | on a text with the last asking segment given twice the search stops at the first copy and leaves text over |
| GlobLoss.FixedEnd | src/app/transfer_ops.rs:471-489 | a segment with no star after its last slash matches at most one prefix of a text |
| GlobLoss.AnyFileBelowTakesNone | src/app/transfer_ops.rs:405-429 | `**` and then a slash and a star accepts exactly the texts of slashes only |
| GlobTrailing.TrailingDoubleStarMissesIff | src/app/transfer_ops.rs:377-429 | a pattern ending in `**` rejects some text in which its segments can be placed at component starts exactly when, past the first segment that asks for anything, one starts with a star and then a slash |
| GlobTrailing.ClosedKeepsUp | src/app/transfer_ops.rs:377-423 | without such a segment greedy placement keeps up with every placement, on every text |
| GlobTrailing.OpenFails | src/app/transfer_ops.rs:397-423 | with one, the segments cannot be placed on the pattern with its stars left out |
| GlobTrailing.EmptyDirectoryIsMissed | src/app/transfer_ops.rs:405-411 | the segments `a`, `*/b` and a trailing `**` stand for `a//b`, and it is not found |
| PathOrder.BeforeIff | src/app/sync_ops.rs:250-250 | one text comes before another exactly when they agree up to some place where the first ends or has the smaller character |
| PathOrder.SortedPathsIsSorted | src/app/sync_ops.rs:244-251 | the merged path list is strictly sorted and holds exactly the given paths, once each |
| PathOrder.SortedUnique | src/app/sync_ops.rs:244-251 | only one strictly sorted list has a given set of paths |
| SyncPlanner.ComparisonOutcomes | src/app/sync_ops.rs:149-220 | the decision table as conditions: identical exactly by the compare mode's evidence, destination-newer exactly when later dated at equal size, a size or checksum mismatch exactly when that is the difference, skip and conflict exactly when these and the policy say so |
| SyncPlanner.IndexByPath | src/app/sync_ops.rs:229-236 | the map by path, a later entry replacing an earlier one |
| SyncPlanner.ByPathKeepsPaths | src/app/sync_ops.rs:229-236 | the map has exactly the listed paths, each with an object of that path |
| SyncPlanner.LastOfPathWins | src/app/sync_ops.rs:229-236 | of several listed objects with one path the map holds the last |
| SyncPlanner.BuildSyncPlan | src/app/sync_ops.rs:222-295 | the loop builds the specified items in path order and every counter and byte total agrees with them |
| SyncPlanner.PlanIsSorted | src/app/sync_ops.rs:244-251 | items are in strict path order and no path appears twice |
| SyncPlanner.PlanIsExact | src/app/sync_ops.rs:222-295 | the items cover exactly the union of the two path sets, each with both objects and the decision for them |
| SyncPlanner.MissingSides | src/app/sync_ops.rs:252-264 | a path only the source has is created, one only the destination has is deleted if that is asked for and skipped if not, and the reason names the lacking side exactly then |
| SyncPlanner.SummaryCounts | src/app/sync_ops.rs:266-283 | the counters in terms of the listings: as many creates as paths only the source has, as many deletes as paths only the destination has, and the shared paths updated or in conflict |
| SyncPlanner.CountersSum | src/app/sync_ops.rs:266-292 | the five counters sum to the number of items |
| SyncPlanner.CopyIsASpecialSync | src/app/sync_ops.rs:297-362 | a copy plan ignores the policy, equals the sync plan with overwrite on, deletes off and newer destinations skipped, and has no delete or conflict |
| SyncPlanner.DiffPreviewsSync | src/app/sync_ops.rs:252-264 | a diff plan equals the sync plan |
| SyncFilters.ApplyPatternFilter | src/app/sync_ops.rs:113-128 | a path passes when an include pattern takes it, or there are none, and no exclude pattern does |
| SyncFilters.WordsPassIff | src/app/sync_ops.rs:113-128 | with plain words as patterns a path passes exactly when a word to include occurs in it, or there are none, and no word to exclude does |
| SyncFilters.OneMorePattern | src/app/sync_ops.rs:113-128 | one more pattern to exclude takes away exactly the paths it matches, one more to include adds exactly those that nothing excludes |
| SyncFilters.FilterThenIndex | src/app/sync_ops.rs:98-128 | filtering a listing and indexing it commute |
| SyncFilters.FilteringCommutesWithPlanning | src/app/sync_ops.rs:98-128 | the plan of two filtered listings is the full plan restricted to the passing paths |
| SyncFilters.ExcludedIsNeverPlanned | src/app/sync_ops.rs:98-128 | an item is in the restricted plan exactly when it was planned and its path passes |
| SyncFilters.ExcludedWordIsNeverPlanned | src/app/sync_ops.rs:98-128 | no planned item has a path in which a word to exclude occurs |
| SyncLowering.PrepareSyncRunPlan | src/app/sync_ops.rs:364-419 | the loop computes the specified run plan, or the specified error |
| SyncLowering.RunPlanIsLowered | src/app/sync_ops.rs:364-419 | that run plan holds the creates and updates, and the deletes, in plan order with exact totals and relay flag; the error is that of the first item that cannot be lowered |
| SyncLowering.RunTotalsArePlanTotals | src/app/sync_ops.rs:364-419 | the lowered lists have as many items and bytes as the plan has creates and updates, and deletes |
| SyncLowering.RunPlanAgreesWithSummary | src/app/sync_ops.rs:364-419 | the run plan's counts and byte totals are the ones in the plan summary the user reviews, and so are those of its creates and of its updates |
| SyncLowering.TransfersComeFromPlan | src/app/sync_ops.rs:368-394 | transfers correspond one to one, in order, to the create and update items, with their paths, endpoints and bytes |
| SyncLowering.DeletesComeFromPlan | src/app/sync_ops.rs:395-408 | deletes correspond one to one, in order, to the delete items |
| SyncLowering.StrategiesOfSides | src/app/sync_ops.rs:466-506 | every transfer's strategy follows from the two sides: upload, download, server-side copy exactly within one connection and client relay between two; the relay flag is set exactly then |
| SyncLowering.LoweringFailsIff | src/app/sync_ops.rs:421-497 | preparing fails exactly when something has to be placed in a directory that is not chosen, or transferred between two directories, with that error |
| SyncLowering.JoinS3KeyInjective | src/app/sync_ops.rs:508-516 | under one prefix different relative paths have different keys |
| SyncLowering.PlaceOfInjective | src/app/sync_ops.rs:421-464 | different paths of a side stand for different places |
| SyncLowering.KeyRoundTripsIff | src/s3/client.rs:691-706 | a listed key is rebuilt from its relative path exactly when it meets the prefix at the number of slashes that joining restores |
| SyncLowering.SiblingPrefixIsMisplaced | src/s3/client.rs:699-706 | `foobar/x` listed under the prefix `foo` is planned as `foo/bar/x` |
| SyncLowering.RelativeRoundTrips | src/app/sync_ops.rs:508-516 | a relative path without leading slash is recovered from its key |
| SyncListing.PlaceRoundTripsIff | src/s3/client.rs:691-706 | a listed place is the one its path stands for exactly when it is at the boundary |
| SyncListing.PlaceIsListed | src/app/sync_ops.rs:421-464 | the place a relative path stands for is listed, under that path |
| SyncListing.EnumerationIsListing | src/app/sync_ops.rs:518-562 | in whatever order a side is enumerated, filtering the entries and indexing them by path gives a listing |
| SyncListing.BoundaryListingIsExact | src/s3/client.rs:691-721 | where all places the patterns let through are at the boundary, listing and places say the same, size, date and checksum included |
| SyncExecutor.WorkerCount | src/app/handlers/sync.rs:820-823 | a limit in force is the typed one when that is positive, and four otherwise |
| SyncExecutor.BatchAt | src/app/handlers/sync.rs:1432-1482 | a batch is non-empty, at most 1000 keys of one connection and bucket, and as long as these rules allow |
| SyncExecutor.BatchIsUnique | src/app/handlers/sync.rs:1432-1482 | those rules leave one batch for each starting point |
| SyncExecutor.SyncExecution.StartCopy | src/app/handlers/sync.rs:1193-1221 | a copy run starts in the copy phase with only transfer bytes to do |
| SyncExecutor.SyncExecution.StartSync | src/app/handlers/sync.rs:1223-1260 | a sync run starts in the phase its delete policy asks for, if there are deletes |
| SyncExecutor.SyncExecution.NextTransferSpec | src/app/handlers/sync.rs:1422-1430 | takes the next transfer, if there is one, and moves the index by one |
| SyncExecutor.SyncExecution.NextDeleteBatchSpec | src/app/handlers/sync.rs:1432-1482 | takes the longest legal batch at the index, with its keys and exactly its bytes |
| SyncExecutor.SyncExecution.MovePhase | src/app/handlers/sync.rs:825-892 | one turn of the phase loop is one move of the specification, and sets the skip flag exactly on the move that skips deletes |
| SyncExecutor.SyncExecution.SettlePhase | src/app/handlers/sync.rs:825-892 | the phase loop ends, in the phase the specification settles on, and sets the skip flag exactly when leaving the copy phase skips deletes |
| SyncExecutor.SyncExecution.IssueTransfers | src/app/handlers/sync.rs:893-915 | issues the next transfers up to the free workers |
| SyncExecutor.SyncExecution.IssueDeleteBatches | src/app/handlers/sync.rs:893-935 | issues consecutive batches up to the free workers |
| SyncExecutor.SyncExecution.TransfersForPhase | src/app/handlers/sync.rs:893-930 | issues transfers in the phases that allow them |
| SyncExecutor.SyncExecution.DeletesForPhase | src/app/handlers/sync.rs:893-945 | issues delete batches in the phases that allow them |
| SyncExecutor.SyncExecution.IssueForPhase | src/app/handlers/sync.rs:893-963 | issues what the phase allows and clears `running` when that is nothing |
| SyncExecutor.SyncExecution.DispatchExecution | src/app/handlers/sync.rs:809-971 | a whole dispatch: the new counters and the requests sent, whose transfers are the plan's next ones in order and come before the deletes |
| SyncExecutor.SyncExecution.RecordCopyStep | src/app/handlers/sync.rs:706-747 | a returned transfer moves the counters and stops the run when it fails beside deletes and errors count |
| SyncExecutor.SyncExecution.CopyStepFinished | src/app/handlers/sync.rs:706-747 | a returned transfer followed by a dispatch is one step of the state machine |
| SyncExecutor.SyncExecution.RecordDeleteBatch | src/app/handlers/sync.rs:749-780 | a returned batch moves the counters and stops the run when it fails and errors count |
| SyncExecutor.SyncExecution.DeleteBatchFinished | src/app/handlers/sync.rs:749-780 | a returned batch followed by a dispatch is one step of the state machine |
| SyncRuns.FinishKeepsInv | src/app/handlers/sync.rs:706-780 | every completion, success or failure, keeps the executor's invariant |
| SyncRuns.SettleKeepsInv | src/app/handlers/sync.rs:825-892 | settling the phase keeps the invariant and leaves a phase that stays |
| SyncRuns.IssueKeepsInv | src/app/handlers/sync.rs:893-963 | issuing keeps the invariant and leaves work in flight unless the run is over |
| SyncRuns.ReachableInv | src/app/handlers/sync.rs:706-971 | the invariant holds after every run from every start |
| SyncRuns.DispatchSends | src/app/handlers/sync.rs:953-971 | what a step of a run adds to the requests sent is what the dispatch returns |
| SyncRunLaws.TaskConservation | src/app/handlers/sync.rs:706-780 | transfers issued are active, completed or failed; deletes issued are in flight, completed or in a failed batch; batches likewise |
| SyncRunLaws.ByteConservation | src/app/handlers/sync.rs:706-780 | total bytes are the bytes done, in flight, failed and not yet issued |
| SyncRunLaws.ActiveWithinLimits | src/app/handlers/sync.rs:893-935 | in every run from its start no more tasks are active than the largest limit ever read |
| SyncRunLaws.NoIdleWorkers | src/app/handlers/sync.rs:893-951 | after every dispatch as many tasks of a kind are active as its limit says, unless none is left or the phase does not let the kind run |
| SyncRunLaws.BatchesPartitionDeletes | src/app/handlers/sync.rs:1432-1482 | the issued batches concatenate to a prefix of the delete list, are legal and disjoint, and each request carries exactly its items' bytes |
| SyncRunLaws.RequestsFollowThePlan | src/app/handlers/sync.rs:1422-1482 | in every run the transfer requests sent, in order, are exactly the plan's first items, and each delete request names the connection, bucket and keys, or the file, of exactly its batch's deletes, with their bytes |
| SyncRunLaws.DeletesOnlyAfterAllTransfersSucceeded | src/app/handlers/sync.rs:836-861 | with deletes after the copy and errors counting, a delete is issued only when every transfer was issued, came back and succeeded |
| SyncRunLaws.FailedTransferSkipsDeletes | src/app/handlers/sync.rs:836-861 | after a failed transfer such a run never deletes and ends done, with the skip reported exactly when deletes were planned |
| SyncRunLaws.SkipIsJustified | src/app/handlers/sync.rs:850-853 | the skip flag is set only after a failed transfer with deletes planned and errors counting |
| SyncRunLaws.TransfersOnlyAfterDeletes | src/app/handlers/sync.rs:826-835 | with deletes before the copy no transfer is issued until every delete has come back, successfully unless errors are ignored |
| SyncRunLaws.CopyNeverDeletes | src/app/handlers/sync.rs:836-845 | a copy run issues no delete |
| SyncRunLaws.StopIsJustified | src/app/handlers/sync.rs:734-777 | a run stops only when errors count and a task has failed |
| SyncRunLaws.FailureStops | src/app/handlers/sync.rs:734-777 | a failed delete batch, or a failed transfer beside deletes, does stop the run when errors count |
| SyncRunLaws.DoneIsComplete | src/app/handlers/sync.rs:862-892 | a done run has nothing in flight, all transfers returned and, unless skipped or a copy, all deletes issued |
| SyncRunLaws.OverIsAbsorbing | src/app/handlers/sync.rs:886-892 | a run that is over stays as it is over and issues nothing |
| SyncRunLaws.HistoryIsKept | src/app/handlers/sync.rs:706-971 | returned tasks keep their outcome and issued batches stay in their order |
| SyncRunLaws.QuietMeansOver | src/app/handlers/sync.rs:825-951 | no stall: with nothing in flight the run is done or stopped |
| SyncRunLaws.StepLowersMeasure | src/app/handlers/sync.rs:825-951 | every completion with its dispatch lowers the work left |
| SyncRunLaws.RunsAreShort | src/app/handlers/sync.rs:825-951 | no run takes more completions than the plan has items |
| SyncRunLaws.RunsCanFinish | src/app/handlers/sync.rs:825-951 | every run can go on until it is over with nothing in flight |
| SyncRunLaws.RunningMeansEveryStepIssued | src/app/handlers/sync.rs:954-963 | `running` says exactly that every dispatch so far issued something |
| SyncRunLaws.RunningMeansInFlight | src/app/handlers/sync.rs:954-963 | while `running` is set something is in flight |
| SyncRunLaws.NotRunningWithWorkInFlight | src/app/handlers/sync.rs:954-963 | the converse fails: a reachable state has `running` cleared and a transfer in flight |
| SyncRunLaws.RunningIsTruthfulIff | src/app/handlers/sync.rs:954-963 | in a copy run with fixed limits the flag says whether anything is in flight, in every state, exactly when the limit is one or there is one transfer at most |
| SyncStore.MissesIff | src/app/transfer_ops.rs:224-252 | a transfer lands where it is meant to exactly unless it is a server-side copy between two connections |
| SyncStore.OnlyPlannedPlacesChange | src/app/transfer_ops.rs:194-318 | whatever fails, a run changes only the places its items name |
| SyncStore.FailedCopyDeletesNothing | src/app/handlers/sync.rs:836-861 | with deletes after the copy and errors counting, a failed transfer leaves every place planned for deletion as it was |
| SyncStore.CleanRunDoesThePlan | src/app/transfer_ops.rs:194-318 | a clean done run has copied what is at each transfer's source to its destination, emptied every delete's place of a sync and left the rest alone |
| SyncStore.CleanRunExists | src/app/handlers/sync.rs:809-971 | if there is something to read for every transfer, some run is clean and done |
| SyncConvergence.TransferPathsOfPlan | src/app/sync_ops.rs:364-419 | the run plan transfers exactly the created and updated paths, once each |
| SyncConvergence.DeletePathsOfPlan | src/app/sync_ops.rs:364-419 | the run plan deletes exactly the deleted paths, once each |
| SyncConvergence.BytesAreSizes | src/app/sync_ops.rs:374-402 | a transfer carries the size the source listed for its path and a delete the size the destination listed |
| SyncConvergence.ActionCases | src/app/sync_ops.rs:252-264 | create exactly for source-only paths, delete exactly for destination-only paths when allowed, update and conflict only for shared ones |
| SyncConvergence.SyncRunResult | src/app/handlers/sync.rs:809-971 | what a clean done sync leaves at each place is what the action of its path says, whatever the order, limits and delete phase, and every other place is as it was |
| SyncConvergence.PlacesConvergeIff | src/app/sync_ops.rs:508-516 | after every clean done run of a conflict-free sync that deletes extras, with patterns set or not, the places the destination lists and the patterns let through are exactly those of the source's listed paths if and only if all such places before were at the boundary |
| SyncConvergence.MisplacedSurvives | src/s3/client.rs:691-706 | in every run, finished or not, clean or not, a place that is not at the boundary is as it was |
| SyncConvergence.OutsideIsUntouched | src/app/sync_ops.rs:98-128 | so is a place the destination does not list or whose path the patterns keep out |
| SyncConvergence.UnplannedIsUntouched | src/app/sync_ops.rs:404-404 | and the place of a path that is skipped or in conflict |
| SyncConvergence.OthersUntouched | src/app/handlers/sync.rs:809-971 | and any place that no listed path stands for |
| SyncConvergence.SiblingSurvives | src/s3/client.rs:699-706 | `foobar/x` under the prefix `foo`: its delete goes to `foo/bar/x`, the run is clean and done, and it is still there |
| SyncConvergence.CleanSyncConverges | src/app/handlers/sync.rs:809-971 | with all places the patterns let through at the boundary, such a run leaves exactly the source's listed paths at their places, each a copy or judged identical |
| SyncConvergence.SkipNewerConvergesIff | src/app/sync_ops.rs:174-191 | when newer destination objects are skipped, a path converges exactly when the destination is not the newer |
| SyncConvergence.ReplanningIsQuiet | src/app/sync_ops.rs:222-295 | if a fresh copy counts as the same, listing and planning again after such a run yields only identical skips |
| SyncConvergence.SizeOnlyReplanningIsQuiet | src/app/sync_ops.rs:159-165 | in size-only mode transfers that keep sizes are enough for that, if the source's places are at the boundary too, under any newer-destination policy |
| SyncConvergence.AlwaysOverwriteNeverQuiet | src/app/sync_ops.rs:155-158 | in always-overwrite mode every shared path is planned again |
| SyncGate.DecimalInjective | src/app/handlers/sync.rs:688-690 | different numbers are written differently |
| SyncGate.DecimalIff | src/app/handlers/sync.rs:688-690 | a number is written in digits with its value and no leading zero, and in no other way |
| SyncGate.ConfirmsIff | src/app/handlers/sync.rs:688-697 | a text confirms exactly when it reads `delete`, a space and the number's digits, with spaces around it or none |
| SyncGate.ConfirmsOneNumber | src/app/handlers/sync.rs:682-704 | one typed text confirms one number of deletes only |
| SyncGate.ConfirmsItself | src/app/handlers/sync.rs:688-697 | typing what is asked for confirms it |
| SyncGate.SyncForm.ClearSyncPlan | src/app/handlers/sync.rs:974-982 | an edit drops the source's listing, the plan, the run plan, the execution and the confirmation together |
| SyncGate.SyncForm.ValidateSyncGuardrails | src/app/handlers/sync.rs:1013-1036 | passes exactly when each limit is left empty or is a positive number that the run's deletes, or their bytes, do not exceed |
| SyncGate.SyncForm.HandleStartSyncPlan | src/app/handlers/sync.rs:425-468 | drops the old plan and starts listing the source by the form's source side and filters |
| SyncGate.SyncForm.HandleSourceEnumerated | src/app/handlers/sync.rs:470-507 | keeps the listing and starts the destination's by the form's destination side and filters |
| SyncGate.SyncForm.HandleDestinationEnumerated | src/app/handlers/sync.rs:509-569 | starts the planner on the kept listing, or an empty one if there is none, and this one, exactly when both fit the planner's limit |
| SyncGate.SyncForm.HandlePlanBuilt | src/app/handlers/sync.rs:571-601 | a plan ends planning and, outside diff mode, is lowered under the settings of the form to the run plan or an error |
| SyncGate.SyncForm.HandleStartSync | src/app/handlers/sync.rs:623-661 | starts a run without deletes, opens the confirmation for one with deletes, or reports why not |
| SyncGate.SyncForm.HandleStartSyncCopy | src/app/handlers/sync.rs:603-621 | starts a copy run in copy mode only |
| SyncGate.SyncForm.HandleConfirmSyncDeleteRun | src/app/handlers/sync.rs:682-704 | starts the run only under an open confirmation whose text, if asked for, is right |
| SyncGate.GateKeptIff | src/app/handlers/sync.rs:425-704 | a message keeps an open confirmation true to the form exactly when it is the user's, or a result that leaves the count, bytes, conflicts, guardrails and need for typing as confirmed |
| SyncGate.SessionKeepsGate | src/app/handlers/sync.rs:425-704 | in every session whose results are harmless an open confirmation belongs to the current conflict-free plan within the guardrails and shows its numbers |
| SyncGate.TidyIsHarmless | src/app/handlers/sync.rs:425-601 | without a reset while a job runs every result is harmless |
| SyncGate.DestructiveRunIsConfirmed | src/app/handlers/sync.rs:571-704 | a sync run that deletes starts only by confirming it: no conflicts, both limits kept, shown with exactly its deletes and bytes, and typed with that number and no other exactly when there are over 1000 deletes, over 10 GiB, more than a quarter of the destination or an empty source |
| SyncGate.StartSyncOutcomes | src/app/handlers/sync.rs:623-661 | asking for a sync starts one without deletes, opens the confirmation with its numbers for one with deletes, or is refused, each exactly under its condition in numbers |
| SyncGate.StartsIff | src/app/handlers/sync.rs:603-704 | exactly which messages start a run, of which mode and which run plan |
| SyncGate.ClosedUntilAsked | src/app/handlers/sync.rs:663-704 | after a cancelled or dropped confirmation nothing can be confirmed until a sync is asked for again, whatever comes in between |
| SyncGate.DiffHasNoRunPlan | src/app/handlers/sync.rs:571-601 | in every session a form in diff mode has nothing to run |
| SyncGate.AppearingRunIsConfirmed | src/app/handlers/sync.rs:603-704 | wherever a sync that deletes appears on the form as the execution, it was confirmed like that |
| SyncGate.LateResultEscapesConfirmation | src/views/sync.rs:408 | from a new form, by a reset while comparing: a plan left behind comes back under an open confirmation of one delete, and confirming it starts a run of two |
| SyncGate.StartedRunIsCurrent | src/app/handlers/sync.rs:425-601 | without a reset while a job runs and without an edit of what the plan being made rests on, a started run is lowered from the plan of two listings, all under exactly the settings on the form, filters included, and the counts the thresholds go by are those of these listings |
| SyncGate.PlanIsCurrentIff | src/app/handlers/sync.rs:1113-1191 | with edits, a plan rests on the settings the form ends with exactly when none came between the two listings, unless the source was empty, and the sides, the filters and the mode, policy and comparison end as each listing and the planner had them |
| SyncGate.EmptySourceDeletesAll | src/app/sync_ops.rs:351-362 | with an empty source and deletes on, every path the destination lists is planned to be deleted |
| SyncGate.EditBetweenListingsDeletesAll | src/app/handlers/sync.rs:974-982 | an edit between the two listings makes the plan delete all that, whatever the source held, while the form shows the source's count |
| SyncGate.StaleFilterDeletesShared | src/app/handlers/sync.rs:370-414 | patterns edited while the source is listed: every object both sides hold that only the new patterns let through is planned to be deleted |
| TransferWizard.TransferState.ProcessNextStep | src/app/handlers/transfer.rs:413-468 | issues the next item under the modal's policy, or ends the run |
| TransferWizard.TransferState.HandlePrepared | src/app/handlers/transfer.rs:282-313 | a prepared list resets the counts and starts, or ends at once when empty or failed |
| TransferWizard.TransferState.HandleStepFinished | src/app/handlers/transfer.rs:315-349 | a result pauses on a conflict, and otherwise counts once and goes on |
| TransferWizard.TransferState.ResolveConflict | src/app/handlers/transfer.rs:470-519 | an answer closes the question, may set the policy for all, and skips the item or issues it again as an overwriting copy |
| TransferWizard.CountsAddUp | src/app/handlers/transfer.rs:282-349 | next index is completed plus skipped plus failed; an open question is for the next item and comes only while the policy is to ask; at the end the counts sum to the items |
| TransferWizard.CountersTell | src/app/handlers/transfer.rs:315-349 | in every session the three counters are the steps that copied, those that skipped with the questions answered Skip, and those that failed, since the last list |
| TransferWizard.EachItemTriedOnce | src/app/handlers/transfer.rs:413-468 | in every session the items are tried once each and in order, as moves exactly if the modal moves |
| TransferWizard.AnswerForAllEndsQuestions | src/app/handlers/transfer.rs:470-519 | after an answer for all, in every course of events, no task issued later can ask; what still asks was already under way |
| TransferWizard.AnswerForAllIsFinal | src/app/handlers/transfer.rs:476-482 | in calm sessions no question follows it at all, and every later task goes by Skip All or Overwrite All as answered |
| TransferWizard.SkipAllKeeps | src/app/transfer_ops.rs:122-192 | after Skip All every object stays as it is unless an overwrite was on its way, a question from before is answered Overwrite, or it is moved |
| TransferWizard.SkipAllKeepsEverything | src/app/transfer_ops.rs:122-192 | in calm sessions every object stays, except where a move takes it |
| TransferWizard.AnswerForAllFinishes | src/app/handlers/transfer.rs:413-519 | a copy run without faults goes through after an answer for all, one step an item, and leaves something at every later item's destination, under Skip All without changing anything that was there |
| TransferWizard.StepOutcome | src/app/transfer_ops.rs:122-192 | a step without faults asks, skips or copies exactly by what is at the destination and the policy, and changes nothing else |
| TransferWizard.OverwriteAnswerCopies | src/app/handlers/transfer.rs:484-519 | an Overwrite answer issues one task, for the item asked about, that copies it over what is there |
| TransferWizard.AccountsKeptIff | src/app/handlers/transfer.rs:282-349 | an event keeps these accounts exactly when it is not a list that comes back while a step is under way |
| TransferWizard.PromptIsCalm | src/app/handlers/transfer.rs:237-262 | which never happens if no question is answered while another list is being prepared |
| TransferWizard.TwoInFlightIff | src/app/handlers/transfer.rs:470-519 | an answer given then, followed by a list with items, puts two tasks in flight unless it skips the last item |
| TransferWizard.RunsEnd | src/app/handlers/transfer.rs:315-349 | in every session, until the next list, steps come back and questions are answered no more often than there is work, so runs end |
| TransferWizard.CalmRunsAreShort | src/app/handlers/transfer.rs:315-349 | a calm run takes at most three steps and answers for each item |
| TransferWizard.NoOverwriteWithoutConsent | src/app/transfer_ops.rs:122-192 | from any idle modal whose policy is not to overwrite all, in every course of events, an object that was there is unchanged unless the user then chose Overwrite for it, or Overwrite All with it among the prepared destinations, or moved it |
| TransferWizard.AsksFirstIff | src/app/handlers/transfer.rs:413-519 | an idle modal overwrites nothing unasked, for any store and course of events, exactly when its policy is not to overwrite all |
| TransferWizard.AskIsSafeIff | src/app/transfer_ops.rs:122-192 | a copy in ask mode keeps every object of every store exactly when it is checked for where it writes, or writes nothing, or writes back what is there |
| TransferWizard.ErringCheckOverwrites | src/app/transfer_ops.rs:132-133 | for instance, an existence check that errs makes ask mode overwrite |
| TransferWizard.OtherConnectionStaysEmpty | src/app/transfer_ops.rs:144-158 | for instance, a copy to another connection is reported as done and lands on the current one |
| TransferWizard.MovedObjectSurvivesIff | src/app/transfer_ops.rs:144-158 | a move that reports success keeps the object exactly when it did not land on its source |
| TransferWizard.SourceRemovedIff | src/app/handlers/transfer.rs:505-514 | a copy removes its source exactly when issued as an S3 move, which the copy after an Overwrite answer never is |
| TransferWizard.SecondRunDoesNotAsk | src/app/handlers/transfer.rs:477-483 | for instance, an answer for all makes a later run of the modal overwrite without a question |
| TransferWizard.RestartOverQuestionMiscounts | src/app/handlers/transfer.rs:369-386 | restarting over an open question can report two copies for one item |
| Multipart.FillChunk | src/s3/client.rs:350-365 | whatever the short reads, the chunk is the next bytes of the file, full unless the file ends |
| Multipart.UploadPart | src/s3/client.rs:350-388 | one turn of the loop takes the next bytes and keeps the balance, for any file length |
| Multipart.UploadParts | src/s3/client.rs:333-392 | the parts concatenate to the first bytes of the announced size, are numbered from one without gaps, all full at 8 MiB but a non-empty last, and as few as possible; or the first refused part is reported |
| Multipart.EndsIffLongEnough | src/s3/client.rs:350-382 | the loop runs out of bytes exactly when the file is at least as long as announced, and otherwise ends only at a refused part |
| Calendar.TimestampNow | src/bench/stats.rs:235-262 | the date and time is valid and counting it back gives the seconds |
| Calendar.DaysBeforeMonthClosed | src/bench/stats.rs:251-258 | counting months off agrees with the closed form of a year that starts in March |
| Calendar.DaysBeforeYearClosed | src/bench/stats.rs:245-250 | counting years off agrees with the closed form of the Gregorian calendar |
| Calendar.OrderIsKept | src/bench/stats.rs:239-260 | of two valid dates and times the earlier has the smaller count, both ways, so a count determines one |

## Left out

- TransferWizard.NoOverwriteWithoutConsent: holds for courses of events whose copies land where they are checked for and whose existence check does not err, because without either it is false (AskIsSafeIff).
- TransferWizard.CountsAddUp: holds for sessions in which no list comes back while a step is under way; AccountsKeptIff says that this is exactly what it takes.
- SyncGate.DestructiveRunIsConfirmed: holds for sessions whose results are harmless when they come back; GateKeptIff says exactly which are, and LateResultEscapesConfirmation what happens otherwise.
- SyncConvergence.CleanSyncConverges: asks for all places the patterns let through to be at the boundary at the destination, which PlacesConvergeIff shows to be exactly what it takes. The patterns are part of it, the size and age filters are not, as they can let an object through on one side only. The source does not change and nothing else writes to the destination during the run, so source and destination do not overlap; a task takes effect when it comes back; a listing is complete.
- SyncExecutor.SyncExecution.SettlePhase: the source moves the phase and issues tasks in one function; here one turn of the phase loop, the loop, and the issuing are methods of their own, called in that order.
- Multipart.UploadParts: asks for a file at least as long as announced or a part that is refused, because otherwise the source does not end; UploadPart, its loop body, has no such condition. The 32-bit part number is an unbounded number.
- GlobPattern.TrailingDoubleStarIsComplete: says nothing of which further texts a pattern that ends in `**` accepts; DirDoubleStarVersusBelow says it for a directory.
- SyncRunLaws.RunningIsTruthfulIff: stated for copy runs with fixed limits.
- Text is ASCII: lower-casing other letters, and the mixing of byte and character offsets in the `**` matcher, are not modelled.
- Integers are unbounded: 64-bit sizes and counters do not wrap.
- What the size and age filters let through, and the parsing of patterns, sizes, ages and limits; a limit is its parsed value.
- Joining local paths, platform separators, symbolic links, case-insensitive file systems, and pruning of empty directories.
- Sorting, deduplication and ordered maps are library code, modelled by their result.
- Closing the form, and completions of abandoned executions.
- The choice of a client for a connection; two connection names for one server count as two places. A client that cannot be made is a failed task.
- Network, file system, keychain and window code, bandwidth, timing, throughput and message texts.
- Bulk, prefix and bucket deletion, the performance window, connection checks and lifecycle documents: their invariants are easier versions of those here.
- Formatting a date as text: its fields are modelled, not their padding.
