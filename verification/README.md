# Verified models of firehose-core

This project models, in Dafny, the parts of firehose-core whose correctness is hardest to see
from the code, and proves what they promise. It stands beside the Go repository; all paths below
are relative to its root. `dafny verify dfyconfig.toml` checks everything.

## What is modelled

**The block poller** (`ForkDB`, `Poller`, `PollerSteps`, `PollerRuns`, `PollerRestart`,
`PollerBackfill`, `PollerRequests`, `PollerLives`, `PollerObjects`). The poller fetches blocks one
at a time, links them in a fork database, fetches missing parents when a tip does not meet the last
irreversible block (LIB), hands connected segments to a handler, moves the LIB, purges and saves a
cursor file. `Poller` has the step as functions on values and the invariant every step keeps;
`PollerSteps` says what one step achieves; `PollerRuns` draws from it what holds over all runs, for
any forks and any wrong answers of the fetcher; `PollerRestart` covers the cursor file,
`PollerBackfill` what one fetched parent achieves, `PollerRequests` what every run asks for next and
that asking ends, and `PollerLives` follows a poller that is stopped, refused a block or crashed any
number of times and started again. `PollerObjects` has the same code as objects that are updated in
place, each method tied to the step functions. The fork database is another library; it is modelled
by what the repository shows of it.

**The merger** (`Bundler`, `Partition`, `MergerProtocol`, `MergerRefinement`, `MergerRestarts`,
`MergerTraces`, `MergerForks`, `MergerObjects`). The bundler cuts a rising chain of irreversible
one-block files into bundles of a fixed size. `Bundler` and `Partition` treat one call at a time;
`MergerProtocol` is the state machine in which bundling, background stores, fork moves, pruning,
crashes and restarts interleave; `MergerRefinement` shows that between two crashes every
interleaving comes to what the bundler's steps give; `MergerRestarts` says when the store can still
be completed after a crash, `MergerTraces` when it is that of a run without a crash; `MergerForks`
accounts for the files seen on the way; `MergerObjects` has the bundler and the store as objects.

**Smaller cores.** The FIRE lines that the poller prints and the console reader parses
(`FireLines`, with `Text`, `Decimal` and `Base64`); the digit-by-digit search for the last merged
bundle (`BlockSearch`); the byte stream of a merged bundle (`BundleReading`); the writer of merged
files (`BundleWriting`); the linked line buffer (`LineBuffer`); the linking of fork files
(`ForkLinks`); the batch check of merged files (`BatchCheck`); bundle names and the prefix they
are looked up under (`WalkPrefix`).

## What was found

Where the code does less than one might expect of it, the model keeps the code, and a lemma says
exactly when it falls short.

- A block on a bundle boundary that comes right after a bundle without blocks is stored in the
  bundle before it as well, because `merger/bundler.go:214` compares with `>`; the next boundary
  block follows suit if it comes directly after. `Partition.PartitionIsExact` gives the exact
  condition for one run, `MergerRestarts.ExactUnlessSkips` for all runs with crashes,
  `Partition.LateSpills` the failure, and `Bundler.Stored` what is stored instead. No crash avoids
  it: the bundle that such a block skips over is never stored exactly (`MergerRestarts.NeverExact`).
- The bundler panics on an empty pending list exactly when the first block it accepts lies beyond
  its first bundle (`Partition.AcceptOutcomes`).
- A merger can restart exactly when nothing is stored or the last stored bundle has a block
  (`MergerProtocol.RestartNeedsABlock`). It then can get to the complete store, on any chain, exactly
  when three things hold: what is stored so far is exact, no block after the first new one skips onto
  a boundary, and that first one passes the boundary check and falls in the resumed bundle, or no
  bundle was missing (`MergerRestarts.ResumeIsExact`). Otherwise no further restart helps.
- A crash can change what is stored. Where a boundary block was held one bundle early, and the
  next one after it is one bundle further, a run without a crash holds that one early too, but a
  merger that restarts at the first of them does not. On any chain this is the only way a first
  crash leaves a trace when the restart can go on (`MergerTraces.CrashesLeaveNoTrace`);
  `MergerTraces.CutCascade` has an input.
- A fork file in a range the bundler skips over is not moved then: it stays among the seen files until
  the next bundle closes (`MergerForks.SkippedForkStays`; `MergerObjects.MergerBundler.BundleAll` has
  the exact boundary).
- Files below the bundler's base are returned as forks, though the comment in
  `merger/bundler.go:98-101` speaks of cleaning them up only
  (`MergerObjects.MergerBundler.ForkedBlocksInCurrentBundle`).
- Parents come first without exception but the start block itself exactly when the first block
  handed over is the start block (`PollerRuns.FreshRunInOrder`). If the start block's number is
  skipped on its second fetch, and the fetch brings a child of it, they do not
  (`PollerRuns.FirstFetchDecides`).
- After a restart only the saved segment counts as handed over; blocks of other forks that the old
  run fired can be handed over again (`PollerRestart.RestartForgetsOtherForks`).
- A printed block with a time before 1970 cannot be parsed back, and neither can one with a space
  in an id; a type URL without the usual prefix comes back with it (`FireLines.BlockRoundTrip`,
  `FireLines.InitRoundTrip`).
- The search for the last bundle runs below zero when started at zero with nothing stored on a
  multiple of 10^9 (`BlockSearch.SearchFinds`), and with gaps in the store it can miss bundles
  (`BlockSearch.SearchIsLinear`).
- The merged-blocks writer files blocks wrongly when bundle 0 is left without block 99 and when a
  bundle is left out (`BundleWriting.StreamIsFiled`). When the stop block falls in the current
  bundle, the blocks waiting for that bundle's file are never written (`BundleWriting.StopFilesAll`).
- The batch check reports nothing for two sibling blocks at the end of a bundle
  (`BatchCheck.SiblingsGoUnreported`).
- Where a fork branches, one of the two branches is not shown (`ForkLinks.ReportedInFull`).
- The walk prefix misses bundles when the names of the two ends have different widths and begin
  alike (`WalkPrefix.PrefixFindsAll`). A walk in name order meets a lower base after a higher one
  exactly when it is above the leading digits of the higher one, as many as its own name has, which
  takes names of different widths (`WalkPrefix.NameOrder`).

## Assumptions

- An id fixes a block's number and parent, parents have lower numbers, and the LIB number that comes
  with a fetched block is right; `blockpoller/poller.go:173-177` says the last.
- The fork database: a walk follows parent links as far as they go; linking a known id keeps the
  stored block; `SetLIB` moves to the ancestor of the given block at the given number, stays when
  there is none stored, and never moves back; purging drops what is numbered below the LIB
  (`blockpoller/state_file_test.go:20-41`, `blockpoller/poller_test.go:42-70`).
- The bundler is fed an increasing chain; ordering the files into one is the forkable's work.
- Stores of the merger succeed in the end.

## Model

| member | source | states |
|---|---|---|
| ForkDB.WalkShape | blockpoller/state_file_test.go:20-82 | a walk from a tip is a parent-linked chain of stored blocks with rising numbers that ends at the tip and hangs from the first id not stored |
| ForkDB.WalkExtend | blockpoller/poller.go:154-159 | linking the missing parent of a chain puts that block's own walk under it and changes nothing else of it |
| ForkDB.WalkPurge | blockpoller/poller.go:177-178 | purging cuts a walk off exactly at the purge number and leaves the part above as it was |
| Poller.Taken | blockpoller/poller.go:362-370 | the accepted part of a segment is the longest one the handler takes without an error, up to its first refusal |
| Poller.DueFits | blockpoller/poller.go:372-387 | a block due in a chain of which all lower due blocks were handed over has its parent handed over, restored or below the gate, and was not handed over itself |
| Poller.DueIsSafe | blockpoller/poller.go:362-387 | handing a chain over bottom-up keeps parents first and every id at most once |
| Poller.BottomIsAnchored | blockpoller/poller.go:158-168 | at the bottom of a connected segment only the LIB the run started on or one of its children can be due |
| Poller.JoinsThroughOwnLink | blockpoller/poller.go:154-169 | a tip that did not meet the LIB meets it after a link only if the new block is the very one it missed |
| Poller.MoveLib | blockpoller/poller.go:173-178 | moving the LIB up a settled segment and purging keeps the LIB on a fired chain, loses no flag above it, and never lowers it |
| Poller.FireKeeps | blockpoller/poller.go:362-387 | firing a connected segment leaves every block of it fired or below the gate, and keeps order and uniqueness |
| Poller.FireAndSaveKeeps | blockpoller/poller.go:166-187 | firing, moving the LIB, purging and saving keep the whole invariant, and so does stopping at a block the handler refuses |
| Poller.ProcessKeeps | blockpoller/poller.go:145-193 | one step from any reachable state, however it ends: the nil-segment and empty-segment panics cannot happen, the invariant is kept, what was handed over before stays, and the below-LIB panic happens exactly for blocks below the LIB |
| PollerSteps.LibFollows | blockpoller/poller.go:173-178 | the LIB moves to the fetched block's ancestor at its LIB number if that is stored and higher, and else stays |
| PollerSteps.ConnectedStep | blockpoller/poller.go:158-187 | once a tip meets the LIB and the handler takes it, every block of its segment is handed over, was restored or is gated, exactly what lies below the new LIB is purged, and the number after the tip is asked for |
| PollerSteps.TipIsKept | blockpoller/poller.go:154-192 | a pending tip is given up only for a stored block whose parent is stored; any other block is linked and no more, with nothing handed over, saved or purged, unless it is the very block the tip missed and connects it |
| PollerSteps.BackOnChain | blockpoller/cursor.go:43-65 | a waiting poller goes on after a stored block with a stored parent that meets the LIB |
| PollerSteps.StepGoes | blockpoller/poller.go:145-193 | which way a step goes: refused exactly if its tip meets the LIB and the handler does not take a block that is due, on to the number after the tip if all is taken, and else, with nothing handed over, saved or purged, back to the id the tip misses |
| PollerRuns.RunKeeps | blockpoller/poller.go:101-142 | the same over every run, whatever blocks the fetcher answers with and however the run ends |
| PollerRuns.RestoredStart | blockpoller/state_file.go:121-141 | a fork database rebuilt from a truthful cursor file satisfies the invariant, with every restored block flagged as fired |
| PollerRuns.RunOneMore | blockpoller/poller.go:101-142 | one more answer after any run: an ended run stays ended, a skip moves the number by exactly one, a skip of a fetch by hash ends the run, and a block leaves the loop waiting for what its step asks for |
| PollerRuns.EveryFreshRun | blockpoller/poller.go:92-193 | in one run no block is handed over twice or from below the gate, each comes after its parent unless that lies below the gate, excusing the start block and its children, and the segment panics are unreachable |
| PollerRuns.FirstBlock | blockpoller/poller.go:108-187 | the first block fetched is handed over alone if it is the start block or a child of it, which is why children of the start block are excused |
| PollerRuns.FirstHandedOver | blockpoller/poller.go:92-193 | over every run the first block handed over is the start block or a child of it |
| PollerRuns.FreshRunInOrder | blockpoller/poller.go:71-193 | over every fresh run parents come first, but for the start block's own, if and only if the first block handed over is the start block |
| PollerRuns.FirstFetchDecides | blockpoller/poller.go:71-193 | when the first fetch brings the start block or a child of it, parents come first if and only if it brings the start block |
| PollerRuns.EveryRunFromItsStart | blockpoller/poller.go:92-193 | once the first fetch brings the start block, every later block comes after its own parent without exception |
| PollerRestart.ProcessSaves | blockpoller/state_file.go:54-92 | every step keeps the cursor file a chain that meets the LIB, with all its blocks handed over, restored or gated |
| PollerRestart.RunSaves | blockpoller/state_file.go:54-92 | the same over every run |
| PollerRestart.RestoredWalk | blockpoller/state_file.go:123-133 | the walk over the restored links gives back the saved segment, block for block |
| PollerRestart.SaveThenRestore | blockpoller/state_file.go:54-142 | saving then restoring: same LIB, the last fired block's segment reaches it, all of it is flagged, and from the LIB up it equals the running segment |
| PollerRestart.RestartKeepsOrder | blockpoller/state_file.go:95-142 | after a restart no saved block is handed over again, and each block comes after its parent in the old or the new run |
| PollerRestart.RestartForgetsOtherForks | blockpoller/state_file.go:123-133 | a block on top of the saved segment is handed over again exactly when it is not one of the saved blocks |
| PollerBackfill.OneAncestorPerNumber | blockpoller/poller.go:326-360 | a tip has at most one ancestor of a given number, so fetching by number brings the right one on the tip's own chain |
| PollerBackfill.MissingIsAboveLib | blockpoller/poller.go:191-192 | a tip above the LIB that does not meet it stops on a missing ancestor numbered above the LIB |
| PollerBackfill.AsksForTheMissingParent | blockpoller/poller.go:396-402 | the number and hash asked for are those of the missing ancestor, also for segments with restored blocks |
| PollerBackfill.BackfillFetch | blockpoller/poller.go:145-193 | a fetch that answers with an ancestor of the pending tip adds exactly the missing block; then the tip joins, or a strictly lower number above the LIB is asked for |
| PollerBackfill.RestoredIsReady | blockpoller/state_file.go:123-133 | the parent numbers a restart loses never matter: a restored run can backfill like the one that saved |
| PollerBackfill.FreshIsReady | blockpoller/state_file.go:95-119 | a fresh run starts in a state from which backfill works |
| PollerBackfill.RunStaysReady | blockpoller/poller.go:101-193 | every run, however it ends, stays in a state from which backfill works |
| PollerRequests.StepAsks | blockpoller/poller.go:158-192 | after a step that goes on, the next request is for the block the pending tip misses, by its id and number, or, with no tip pending, for the number after the tip handed over and saved |
| PollerRequests.EveryRunWaits | blockpoller/poller.go:101-142 | every run, from a start block or a cursor file and for any answers, waits with a hash only for the block its pending tip misses, and without one for the number after the last tip, or its first number, moved up by one for every skip since |
| PollerRequests.BackfillTerminates | blockpoller/poller.go:114-134 | whenever a run waits by hash for a tip that descends from the LIB, answering each of its requests with the block asked for brings it to wait for the number after the tip, or to a refusal, within as many answers as there are numbers from the LIB to the first one asked for |
| PollerLives.FiredHandsOver | blockpoller/poller.go:166-183 | a step cut off between handing over and saving has handed over exactly what the whole step does, has written nothing, and keeps the invariant |
| PollerLives.LifeStarts | blockpoller/state_file.go:95-142 | whatever the lives before left behind, the next one starts in a good state, from the cursor file or, when there is none or it is ignored, from its own start block |
| PollerLives.AfterIsOk | blockpoller/poller.go:92-193 | one more life, however it ends, leaves a cursor file that tells the truth and restores only what some life handed over or what is gated, and parents first over all lives |
| PollerLives.EveryLife | blockpoller/poller.go:71-142 | across any number of lives, each with its own gate and the start block it fetched, each block handed over comes after its parent in some life, or the parent lies below a gate so far, or one of the two is the start block of a life that began without a file; no life hands a block over twice, from below its gate, or one that it restored, and every life ends ready for backfill |
| PollerLives.RefusedThenRestarted | blockpoller/poller.go:381-383 | a fresh run, also one ended by a refusal, and then a restart: no saved block again, and parents first across both |
| PollerObjects.ForkDatabase.Restore | blockpoller/state_file.go:121-133 | the loop that fills the fork database builds the restored state, every block a new object flagged as fired |
| PollerObjects.BlockCursor.AddBlk | blockpoller/cursor.go:27-50 | the cursor object moves as the step function says |
| PollerObjects.BlockPoller.Fire | blockpoller/poller.go:372-387 | a block is handed over exactly if unfired, not gated and accepted; only then its flag is set, and nothing else changes |
| PollerObjects.BlockPoller.FireCompleteSegment | blockpoller/poller.go:362-370 | the loop hands over exactly the due blocks up to the first refusal, in order, and sets exactly their flags |
| PollerObjects.BlockPoller.SaveState | blockpoller/state_file.go:60-69 | the cursor file lists the LIB, the last fired block and the whole segment in order |
| PollerObjects.BlockPoller.ProcessBlock | blockpoller/poller.go:145-193 | one call on the objects gives the state and outcome of the step function |
| PollerObjects.BlockPoller.Run | blockpoller/poller.go:92-142 | the fetch loop on the objects gives the state and end of the run that the theorems speak about |
| Multiples.ToBase | merger/utils.go:31-33 | the base is a multiple of the size with the number in the bundle it starts |
| Bundler.SkipTo | merger/bundler.go:214-221 | the skip loop ends at most at the block's number, with the block within one size past the base |
| Bundler.Feed | merger/bundler.go:142-229 | a run over a chain takes all of it unless a block ends the run |
| Bundler.FromIsWithin | merger/merger_io.go:124-128 | leaving out blocks below the base keeps exactly the bundle's own blocks and a block on its upper boundary |
| Partition.AcceptKeeps | merger/bundler.go:142-229 | every block keeps the partition: contiguous bases, each job with its own blocks in order and once, plus at most a late boundary block, and nothing pending lost |
| Partition.AcceptOutcomes | merger/bundler.go:142-166 | a block is dropped exactly if it lies below the first base; the empty pending list is reached exactly if the first accepted block lies beyond the first bundle; the boundary error exactly if enforced |
| Partition.StopIsComplete | merger/bundler.go:224-226 | the stop is reached exactly when the base gets there, and every block below it is then in the job of its own bundle |
| Partition.EveryRunPartitions | merger/bundler.go:142-229 | every run over a rising chain leaves the partition of what it accepted |
| Partition.PartitionIsExact | merger/bundler.go:212-221 | each stored bundle holds exactly the blocks numbered in it if and only if no followed block landed on a boundary right after an empty bundle |
| Partition.LateSpills | merger/bundler.go:214 | a boundary block after an empty bundle is one block too many in the bundle below it |
| Partition.EveryBlockStored | merger/bundler.go:193-221 | every accepted block below the base is in the job of its own bundle |
| MergerProtocol.StepKeeps | merger/bundler.go:142-229 | every step of the interleaved machine, crashes included, keeps its invariant; only a completed store moves the first missing base, by one bundle |
| MergerProtocol.PlayKeeps | merger/merger.go:168-232 | the same over every sequence of steps |
| MergerProtocol.ForksAreNotOfTheChain | merger/bundler.go:88-107 | what a closing bundle returns as forks contains no block of the chain that is not stored yet |
| MergerProtocol.ForksAreMoved | merger/bundler.go:187-205 | once a closing bundle is stored, exactly the other files seen below its upper boundary are moved, and those from there up stay |
| MergerProtocol.PruneLeavesTheLastBundle | merger/merger.go:159-165 | pruning may take exactly the files that lie more than a bundle below the base, while no store is in progress |
| MergerProtocol.NothingIsLost | merger/merger.go:114-166 | in every interleaving no one-block file of an irreversible block is deleted before the bundle it belongs to is stored with it |
| MergerProtocol.AlwaysAPartition | merger/merger_io.go:241-285 | the store is always the exact partition of the chain up to some boundary, however often the merger crashed, unless the chain skips onto a boundary |
| MergerProtocol.RestartNeedsABlock | merger/merger_io.go:259-285 | a restart is possible exactly when nothing is stored yet or the last stored bundle has a block |
| MergerProtocol.RestartFeedsTheLastBlock | merger/merger.go:178-209 | a restart is fed again from the last stored block itself, or from the start when nothing is stored |
| MergerProtocol.SmallStepsRefineAccept | merger/bundler.go:142-229 | the small steps of one block end in the state and store of the bundler's step |
| MergerProtocol.EachJobStored | merger/bundler.go:193-221 | the bundles of contiguous jobs are all in the store, none overwritten |
| MergerRefinement.StepRefines | merger/bundler.go:180-229 | finishing a store, moving the base, skipping a bundle, pruning and seeing files leave what the work in progress comes to as it was; feeding a block changes it as the bundler's step does |
| MergerRefinement.RunRefines | merger/bundler.go:142-229 | without a crash every interleaving comes to the bundler's run over the blocks fed: its state, its jobs, no refusal |
| MergerRefinement.LifeStores | merger/bundler.go:142-229 | whatever the order of steps, a start or restart fed to the end of any chain adds exactly the bundles from its base to the last block's, each with what the partition says for the blocks fed since, and leaves the others alone |
| MergerRefinement.OneEnd | merger/bundler.go:187-200 | two runs from the same start that are fed the whole chain end with the same store, however their stores, skips and prunings were ordered |
| MergerRefinement.StoredForGood | merger/bundler.go:187-221 | what a run without a crash has stored at any moment is part of what every such run to the end stores |
| MergerRestarts.FeedRest | merger/bundler.go:142-229 | a machine that can go on takes the rest of the chain without a crash |
| MergerRestarts.EndIsComplete | merger/bundler.go:193-221 | fed to the end, a start or restart leaves the complete store if and only if it began on exact bundles and no block after its first one skips onto a boundary |
| MergerRestarts.StoredStaysForever | merger/merger_io.go:115-159 | whatever happens, crashes included, a stored bundle is never changed or lost |
| MergerRestarts.NeverExact | merger/bundler.go:212-221 | a bundle that a block skips over onto the next boundary is never stored exactly, whatever the crashes and restarts |
| MergerRestarts.StuckForever | merger/bundler.go:147-166 | a restarted bundler whose first new block is refused or lies beyond its bundle never stores anything again, whatever happens, further restarts included |
| MergerRestarts.ResumeIsExact | merger/merger_io.go:241-285 | on any chain a restarted merger can reach the complete store if and only if what is stored is exact, no block after the first new one skips onto a boundary, and that first one passes and falls in the resumed bundle or no bundle was missing |
| MergerRestarts.ExactUnlessSkips | merger/bundler.go:212-221 | if the first block is accepted at all, every store of every run, crashes included, is exact if and only if the chain does not skip onto a boundary and go on |
| MergerTraces.CrashesLeaveNoTrace | merger/merger.go:178-209 | on any chain, crash anywhere, restart and feed to the end, in any order of steps: the store is that of every run without a crash if and only if what was stored before is part of that one, which it always is at the first crash, and no late boundary block at the restart is followed by the next boundary's block |
| MergerTraces.EndIsReached | merger/bundler.go:147-166 | a start or restart can be fed to the end without a crash exactly when its first new block passes and falls in its bundle |
| MergerTraces.NoSkipNoTrace | merger/merger.go:178-209 | where no block skips onto a boundary, any crash and restart ends with the very store of a run without one, which is complete |
| MergerTraces.CutCascade | merger/bundler.go:212-221 | blocks 100, 199, 300, 400, 500, 600 and a crash after two bundles: the merger can go on but never reach the complete store, nor end as a run without the crash |
| MergerForks.ClosingSweep | merger/bundler.go:88-107 | closing a bundle over the pending blocks accounts for every file seen below its upper boundary: it is an accepted block or listed once as a fork |
| MergerForks.BooksStep | merger/bundler.go:142-229 | each block keeps these books, whether it is dropped, held, refused or closes bundles |
| MergerForks.SkippedForkStays | merger/bundler.go:214-221 | a fork in a skipped range is neither listed nor forgotten when the base moves past it |
| MergerObjects.MergedStore.MergeAndStore | merger/merger_io.go:115-159 | an empty list is an error; else the bundle is written without the blocks below its base |
| MergerObjects.MergedStore.NextBundle | merger/merger_io.go:241-269 | the walk finds the first boundary with no bundle, the bundle before it, and whether there is a hole |
| MergerObjects.MergedStore.ReadLastBlock | merger/merger_io.go:271-285 | the last block of a stored bundle, or none of an empty one |
| MergerObjects.MergerBundler.constructor | merger/bundler.go:61-73 | a new bundler starts at the base of its start block and enforces a first block on the boundary |
| MergerObjects.MergerBundler.Reset | merger/bundler.go:109-127 | drops what is pending, moves the base, and enforces the boundary only without a known last block |
| MergerObjects.MergerBundler.BaseBlockNum | merger/bundler.go:75-81 | the base is read once no store is in progress |
| MergerObjects.MergerBundler.ForkedBlocksInCurrentBundle | merger/bundler.go:88-107 | the seen files are split without loss: below the upper boundary each is irreversible or returned once as a fork, and each other one from there up stays |
| MergerObjects.MergerBundler.ProcessBlock | merger/bundler.go:142-229 | one call moves the bundler as `Accept` says, and the store ends with exactly the jobs it starts; closing a bundle hands every other file seen below its upper boundary over to be moved, once, and keeps the rest; nothing else touches the seen files or the forks; a skipped bundle waits for the closing one |
| MergerObjects.MergerBundler.BundleAll | merger/bundler.go:142-229 | after any chain each boundary passed has its bundle in the store, holding what the partition says, and up to the boundary of the last bundle closed every file seen before is an accepted block or was listed once as a fork, while the others are still there |
| MergerObjects.Resume | merger/merger.go:178-209 | one round of the loop moves the bundler to the first missing base with the boundary check lifted, and crashes exactly on an empty last bundle |
| MergerObjects.FilesToPrune | merger/merger.go:114-166 | one pruning round gathers exactly the walked files that lie more than a bundle below the base, read after the store in progress is done, in order, and stops early only with a full batch or when there is no such number |
| Decimal.ParseShown | consolereader.go:222-251 | a printed number is parsed back exactly if it is not negative and fits the type |
| Decimal.ParseUint | consolereader.go:222-251 | a text is a number exactly if it is digits only and its value is below the limit |
| Decimal.ValueOneMore | consolereader.go:222-251 | the value of a text, digit by digit |
| Base64.DecodeEncoded | blockpoller/handler.go:49 | decoding undoes encoding for every byte string |
| Base64.DecodesWellFormed | consolereader.go:254 | exactly whole groups of symbols with padding only at the very end decode |
| Base64.GroupValue | blockpoller/handler.go:49 | four symbols and the three bytes they stand for are the same 24-bit number |
| Base64.LineBreakIsSkipped | consolereader.go:254 | a line break anywhere in the text changes nothing |
| Text.SplitUndoesJoin | consolereader.go:292-299 | splitting a joined line gives back its fields if and only if only the last one holds the separator |
| Text.JoinOfSplit | consolereader.go:292-299 | the pieces of a split, joined, are the text again, with fewer pieces only when the text has no more separators |
| Text.RemovesTheFirst | blockpoller/handler.go:55-57 | exactly the first occurrence of the prefix is removed, wherever it is |
| FireLines.BlockRoundTrip | consolereader.go:212-275 | a printed block line is read back as the same block if and only if its ids have no space, its time is not negative and its type is the announced one |
| FireLines.BlockAccepts | consolereader.go:212-275 | after an INIT line exactly the lines of seven fields with four 64-bit numbers and a base64 payload are accepted, and each field goes where it belongs |
| FireLines.ShortLineIsRefused | consolereader.go:292-299 | any other BLOCK line is refused |
| FireLines.HandlerTakes | blockpoller/handler.go:34-57 | the handler takes exactly the blocks whose type, less the first prefix in it, is the announced one |
| FireLines.HandlerTakesPlain | blockpoller/handler.go:34-57 | a block whose type holds no prefix is taken exactly when that type is the announced one |
| FireLines.InitRoundTrip | consolereader.go:179-208 | the announced type is read back unchanged if and only if it is the usual prefix and a non-empty name without a slash |
| FireLines.InitAccepts | consolereader.go:179-206 | exactly the versions 1.0 and 3.0 with a usable, non-empty name are accepted; the version is kept even when refused, the message type only when accepted |
| FireLines.StreamRoundTrip | consolereader.go:141-175 | the reader returns exactly the printed blocks in order, whatever other lines come in between, if and only if the type can be read and every block is readable |
| FireLines.BlockBeforeInit | consolereader.go:213-215 | a BLOCK line before any INIT line ends the reading with an error, and nothing is delivered |
| FireLines.HandledStream | blockpoller/handler.go:30-57 | for blocks the handler accepted under a well-formed type and ids without spaces, the stream is read back exactly if no time is negative |
| FireLines.ConsoleReader.Next | consolereader.go:141-175 | the loop over the lines gives the outcome and state of `NextBlock`, and records the last block, its parent and the LIB of a delivered block only |
| FireLines.ConsoleReader.AcceptInit | consolereader.go:179-208 | sets the version, also a refused one, and the message type only when both are supported |
| BlockSearch.LastMergedIsStored | storage.go:92-107 | whatever the probes say, the caller gets its start block or a stored bundle above it, and its start block when the search fails, which takes a failed probe |
| BlockSearch.FailedProbe | storage.go:101-104 | when a probe the search makes fails, the caller gets its start block |
| BlockSearch.LastMergedFinds | storage.go:92-107 | otherwise the caller gets the larger of its start and the greatest bundle all of whose truncations are stored; below zero exactly when started at zero and nothing is reachable |
| BlockSearch.GaplessLastMerged | storage.go:92-107 | without gaps the caller gets what a linear scan finds if and only if it starts above zero or bundle zero is stored |
| BlockSearch.BlockNumIter | storage.go:120-136 | the loop and its recursion compute one level of the search, probe for probe |
| BlockSearch.IterFinds | storage.go:120-136 | a level ends with the greatest reachable number from its start up, with its start if there is none, and below zero exactly when started at zero in vain |
| BlockSearch.SearchFinds | storage.go:109-118 | the larger of the start and the greatest bundle all of whose truncations are stored; below zero exactly when started at zero and nothing is reachable |
| BlockSearch.SearchIsLinear | storage.go:109-136 | when the search agrees with a linear scan, for any store |
| BlockSearch.GaplessSearch | storage.go:109-136 | without gaps it agrees with a linear scan if and only if it starts above zero or bundle zero is stored |
| BlockSearch.SearchProbes | storage.go:109-136 | at most 80 probes |
| BundleReading.StepKeepsRest | merger/bundlereader.go:84-126 | a read takes its bytes off the front of what is left, and ends exactly when nothing is |
| BundleReading.ReadStep | merger/bundlereader.go:84-98 | a read stops short of the buffer only at the end of a file |
| BundleReading.EndOfRead | merger/bundlereader.go:100-126 | a read that ends on an empty or short file drops that file, and one at the end changes nothing |
| BundleReading.ReadsTheStream | merger/bundlereader.go:84-126 | whatever the buffer sizes, the bytes read are a prefix of the same stream, and all of it once a read ends |
| BundleReading.ReadingEnds | merger/bundlereader.go:84-126 | reads with non-empty buffers end after a bounded number of calls |
| BundleReading.BundleIsRead | merger/bundlereader.go:41-126 | read to the end, the stream is the header once and every body in order if and only if no file is shorter than the header or empty |
| BundleReading.BundleReader.Read | merger/bundlereader.go:84-98 | a call fills the front of the caller's buffer, leaves the rest of it, and moves the reader as the step says |
| LineBuffer.LineRingBuffer.Lines | node-manager/log_plugin/line_ring_buffer.go:17-34 | the walk from the tail gives the kept lines in order |
| LineBuffer.LineRingBuffer.Append | node-manager/log_plugin/line_ring_buffer.go:36-60 | head, tail, links and count stay consistent, and the contents are the last `maxCount` lines |
| LineBuffer.LineRingBuffer.AppendAll | node-manager/log_plugin/line_ring_buffer.go:36-60 | after any lines the contents are the tail of all that were appended, `maxCount` long or, when fewer came or the limit is negative, all of them |
| ForkLinks.LinkUpFalls | cmd/tools/check/check.go:132-140 | each move lowers the sum of the keys' ranks, so the loop ends in any map order |
| ForkLinks.LinkUpKeeps | cmd/tools/check/check.go:132-140 | each move keeps every entry a parent-linked path from its key, every parentless file a key, and every unfinished chain with a key below it |
| ForkLinks.LinkForks | cmd/tools/check/check.go:120-146 | the loop ends, in any order, with final links |
| ForkLinks.FinalChains | cmd/tools/check/check.go:126-146 | the final keys are exactly the parentless files, each with a path from it down to a leaf |
| ForkLinks.ReportedInFull | cmd/tools/check/check.go:126-146 | a fork is reported in full if and only if it does not branch |
| BundleWriting.StepKeeps | merged_blocks_writer.go:27-66 | a block in good order is taken, and every file holds exactly the blocks of its own range |
| BundleWriting.StepSpoils | merged_blocks_writer.go:37-50 | a block in bad order is refused or ends up with the wrong file |
| BundleWriting.StreamIsFiled | merged_blocks_writer.go:27-105 | all blocks are taken and none is misfiled if and only if the first is on a boundary or allowed, no bundle is left out, and bundle 0 is left through block 99 |
| BundleWriting.EveryBlockFiled | merged_blocks_writer.go:68-105 | every completed block is in the file named by its own low boundary and in no other |
| BundleWriting.StopFilesAll | merged_blocks_writer.go:52-54 | the stop block ends the run, with every block in its file if and only if it is beyond the current bundle or nothing waits for that one |
| BundleWriting.StopOnlyThen | merged_blocks_writer.go:52-54 | until the stop block comes the writer works as without one |
| BundleWriting.Outcomes | merged_blocks_writer.go:36-54 | when each error and the end of the range is returned; a jump with nothing waiting is an error even at the stop block |
| BundleWriting.MergedBlocksWriter.Process | merged_blocks_writer.go:27-66 | one call on the object gives the state and result of the step |
| BundleWriting.MergedBlocksWriter.Flush | merged_blocks_writer.go:68-105 | writes the pending blocks under the current boundary and moves it by one hundred; nothing pending is an error |
| BundleWriting.LowBoundary | merged_blocks_writer.go:111-113 | the multiple of one hundred whose range holds the number |
| BatchCheck.ReadFile | cmd/tools/check/merged_batch.go:143-202 | the loop over a file's blocks finds the longest linked part, the break after it, and the last linked block |
| BatchCheck.FollowExtends | cmd/tools/check/merged_batch.go:165-201 | the blocks followed extend one chain apart from exact repeats, and the next block breaks it |
| BatchCheck.CleanReportIsChain | cmd/tools/check/merged_batch.go:50-132 | with no break reported and all files read, the blocks form one chain if and only if no break was silent |
| BatchCheck.BreakIsReported | cmd/tools/check/merged_batch.go:93-113 | a break is reported at its own file exactly when the base due after the last linked block is not beyond it |
| BatchCheck.BrokenIsExact | cmd/tools/check/merged_batch.go:93-117 | for any bundle size a break adds to the reports, in order and once each, exactly the bases due since the last linked block up to the file, or the file alone when no block had linked; a file without a break adds nothing |
| BatchCheck.OnTheGrid | cmd/tools/check/merged_batch.go:106-117 | with bundles of 100 these are the multiples of 100 from the one of the number after the last linked block |
| BatchCheck.SiblingsGoUnreported | cmd/tools/check/merged_batch.go:101-113 | two siblings numbered 199 at the end of bundle 100 go unreported |
| BatchCheck.TidyReport | cmd/tools/check/merged_batch.go:50-132 | if files hold only blocks of their own range, and the last one of it only at their end, a clean report means one chain |
| BatchCheck.MissingIsExact | cmd/tools/check/merged_batch.go:83-90 | between the start and the last visited file each absent bundle is reported missing, once and in order, and nothing else is |
| BatchCheck.StopsAtTheEnd | cmd/tools/check/merged_batch.go:121-124 | the check stops on its own exactly when the visited files reach the end of the range |
| BatchCheck.VisitEnds | cmd/tools/check/merged_batch.go:69-127 | a file is passed over exactly if it lies below the start, is an error exactly if it overlaps the last visited, and fails the check exactly if it cannot be opened or is cut off while the chain still holds |
| BatchCheck.BatchChecker.VisitFile | cmd/tools/check/merged_batch.go:69-127 | the walk's callback on its shared variables does what one visit says |
| BatchCheck.BatchChecker.CheckMergedBlocksBatch | cmd/tools/check/merged_batch.go:39-135 | the walk gives the reports and the end of the run the theorems speak about |
| WalkPrefix.WalkBlockPrefix | cmd/tools/check/blocks.go:283-302 | the loop computes the common prefix of the two rounded names, or nothing for an open range |
| WalkPrefix.PrefixFindsAll | cmd/tools/check/blocks.go:283-302 | every bundle from the rounded start to the rounded end begins with the prefix if and only if the two names have the same width or share no digit |
| WalkPrefix.TenDigitsFindAll | cmd/tools/check/blocks.go:283-302 | below ten billion the prefix always finds every bundle of the range |
| WalkPrefix.RoundToBundleStart | types/utils.go:11-15 | the multiple of the size whose bundle holds the block |
| WalkPrefix.NameIsParsed | merger/merger_io.go:245-248 | the number in a printed bundle name is parsed back as its base |
| WalkPrefix.NameOrder | merger/utils.go:27-29 | a lower base comes first in name order if and only if it is not above the leading digits of the higher one, as many as its own name has |
| WalkPrefix.NamesInOrder | merger/utils.go:27-29 | so names of equal width are in the order of their bases, and a walk meets bundles in rising order |

## Left out

- The fork database, the forkable, the object stores and the block file format belong to other
  libraries; they appear only through the contracts above.
- Optimistic prefetching (`blockpoller/poller.go:201-324`): a request for a number is answered by
  some block or by "skipped", in the order the loop consumes the answers.
- Fetch retries, rate limits, timeouts, logging, metrics, shutdown and contexts.
- The cursor file's JSON and path; a poller without a state path, which saves nothing, behaves as
  one that always starts afresh. A cursor file is written whole or not at all.
- Block numbers are unbounded, except where 64-bit and 32-bit parsing or the search's wrap-around
  matter; sums of a number and a bundle size are assumed to fit 64 bits.
- Store failures in the merger, with the lock they leave held, and retries of one round of its loop.
- Asynchronous deletion: a file counts as deleted as soon as the pruner or a fork move names it,
  which is the strictest reading for the safety results.
- The pruning of the forked-blocks store, which touches no irreversible block.
- Download errors and cancellation in the bundle reader: its `select` may report the end of the
  stream instead of the error. The download goroutine appears as a queue of files in order.
- How a node's output is cut into lines; a line break inside an id or a type URL is not modelled.
- Block times outside the range of 64-bit nanoseconds, for which `UnixNano` is undefined.
- BlockSearch.Iter: stops with `Wraps` where the unsigned counter would go below zero; what the real
  loop does from there on is not modelled, and a probe is assumed to answer the same each time.
- BundleWriting.ProcessBlock: the tweak function is applied by the caller, and writing always succeeds.
- The fork listing's minimum depth, minimum height, sorting and layout.
- BatchCheck.MissingIsExact: is stated for files whose numbers are multiples of the bundle size;
  the check itself is modelled for any number.
- BatchCheck.TidyReport: is stated for bundles of 100 blocks, the size the code rounds breaks to.
- Write errors of the batch check's reports, and files whose name holds no ten-digit number.
- The single-file check of `cmd/tools/check/blocks.go`, block range parsing, the operator and
  superviser, servers, flags, launcher and chain tables: plumbing, or members easier than these.
