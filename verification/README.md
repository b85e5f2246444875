# Playbook: verified model of the upgrade machinery and the benchmark gate

This project models two parts of playbook in Dafny and proves what they keep.

**The upgrade machinery** (`crates/cli`). Several playbook processes share one
key/value `state` table and one home folder.

- `Store.dfy` is the table: a map of text rows, each transaction one atomic step.
- `Versions.dfy` is the version order every guard below relies on.
- `PluginUpdate.dfy` holds the plugin update marker: its text form, the due
  check, the claim and the writes. `Lease.dfy` is the protocol around it: every
  interleaving of reads, checks, claims, updates, ends and crashes.
- `Notices.dfy` is the show-once line of a new release; `NoticeRuns.dfy` is every
  interleaving of its steps.
- `Pending.dfy` is the mark of each open item: what a session shows and writes.
  `PendingInterleaved.dfy` says what stays acknowledged, `PendingInOrder.dfy` what
  is shown when.
- `Heal.dfy` is the version record: its text form, the five triggers, the
  downgrade guard and the retry delay. `HealRuns.dfy` is whole sequences of runs,
  `HealOverlap.dfy` runs that overlap, and `HealMeaning.dfy` what a run leaves and
  says, field by field.
- `Storage.dfy` and `Migration.dfy` are the copy of old worktree folders. A run
  can stop before any folder or file it makes; a folder can be listed in any
  order, and a listing can drop any of its entries. `MigrationRuns.dfy` is whole
  chains of runs.
- `Brief.dfy` splits a plan into Work Units, `BriefReading.dfy` says how its lines
  and headings read; `Segment.dfy` makes branch slugs and cuts a Segment.

**The benchmark gate** (`crates/code-bench`), integer arithmetic throughout.

- `Tokenizer.dfy`, `Metrics.dfy` and `Runner.dfy` count: tokens, rounded shares,
  and the running tally of a report.
- `Gate.dfy` judges a report, `GateRules.dfy` and `GateMeaning.dfy` say when it
  passes and what each failure means; `Scope.dfy` shards that judge by language;
  `MergeBase.dfy` keeps the data files from falling.
- `Tasks.dfy` generates the task set, `TaskRules.dfy` says what is in it;
  `Corpus.dfy` fetches and caches checkouts.

`Base.dfy`, `Folds.dfy` and `Text.dfy` hold shared datatypes, the list of what is
found in each item of a list and of the items kept, and text functions.

Code that changes things step by step is a method, on a class where the source
changes an object or the disk, and is proved equal to a function of the old
state; the theorems are about those functions, over every input, run or history.
The clock, the random seed, the transport, git, the file faults and the outcome
of an update are inputs.

## Findings

What one would expect of the code, from its documentation or its names, and what
does not hold of every input. The model follows the code; each point names the
exact condition and, where it can fail, an input.

- `compare` is not transitive when pre-releases mix numbers and words at one dot
  position: `1.0.0-9 < 1.0.0-10 < 1.0.0-1a < 1.0.0-9` (`Versions.CompareCanCycle`).
  So "never goes down" and "shown once" hold exactly when the versions that run are
  ordered transitively (`NoticeRuns.ShownOnceExactly`, `HealRuns.NeverDownExactly`);
  releases, and pre-releases of one shape, are (`Versions.ComparableIsTransitive`).
- The lease protects processes of one version only, because a marker of another
  version is ignored. Binaries of two versions can have two attempts open together
  exactly when one of them finds the plugin older (`Lease.OverlapExactly`): both
  versions claim, or one writes `done` between two claims of the other.
- `Prune::NONE` is documented as dropping nothing; it drops the two plugin version
  slugs (`Pending.PruneNoneAllows`).
- A baseline cost that rounds to zero can rise without a report, because the rise
  is measured against 1: the exact condition is `GateRules.RiseIsReportedExactly`,
  a failing input `GateRules.ZeroBaselineCanRise`. Such a cell can stand in a
  report file, but the runner writes none, because a parsed result takes at least a
  byte and a token of its output (`Runner.CostsAreNotZero`,
  `GateRules.RunnerBaselineDecidesAlone`).
- `record` sets the shown version without a check, so a run goes down exactly when
  a record does (`NoticeRuns.NeverDownExactly`). With records of any version no run
  goes down or repeats a line exactly when no version that runs is below another
  (`NoticeRuns.AnyRecordsExactly`); `NoticeRuns.LoweringRun` does both.
- A heal reads the record before it takes the migration lock and writes it after the
  lock is given back. An older binary that read first and writes last lowers the
  record (`HealOverlap.LoweringRun`): overlapping heals never do exactly when no
  version that runs is below another (`HealOverlap.OverlapExactly`).
- The copy of an old folder passes over an entry its listing cannot read, and still
  marks the folder as done. Such a file is lost to every later run
  (`MigrationRuns.MigratesOneFile`, `MigrationRuns.LostStaysLost`). A run that ends well
  has everything exactly when what it missed was there or came from elsewhere
  (`MigrationRuns.NothingMissingExactly`); a whole folder that was not listed is
  left for the next run (`MigrationRuns.LostExactly`).
- `pick_split` is documented as the newest commit within the limit; it is the last
  one before the first commit over it. The two agree exactly when the cumulative
  size never comes back under the limit (`Segment.SplitIsNewestExactly`).
- The sharded gate judges only repos that a manifest entry names: what it passes is
  `Scope.LegsPassExactly`, what it loses `Scope.UnlistedRepoIsLost`. It agrees with
  the whole gate on all reports of such repos exactly when every unwaived baseline
  repo is one, or a removed task fails both (`Scope.VerdictsAgreeExactly`).
- Generated task ids are unique for all symbols exactly when the repo names are
  distinct and none is another one, a slash and a kind, and then ends or goes on
  with a slash (`TaskRules.GeneratedIdsAreUniqueExactly`). The repos `a` and
  `a/function` can make a task set that its own reader rejects
  (`TaskRules.RejectedSet`).
- The gate reads the first row of a repo only, the merge-base check every row. They
  read the same cell exactly when the gate reads one or no row has one
  (`MergeBase.BaselineReadsFirst`); a repo listed twice can break it
  (`MergeBase.SecondRowIsOnlyProtected`).

## Model

| member | source | states |
|---|---|---|
| Versions.CompareFlip | crates/cli/src/update/resolve.rs:90-135 | swapping two versions turns the answer round, so any two are ordered and a version equals itself |
| Versions.PaddingIsNeutral | crates/cli/src/update/resolve.rs:102-114 | release numbers of different lengths compare the same however far both are padded with zeros |
| Versions.Ignored | crates/cli/src/update/resolve.rs:90-114 | a leading `v` and build metadata change nothing, and a release part that is no number counts as zero |
| Versions.CompareTransitive | crates/cli/src/update/resolve.rs:102-135 | three versions whose pre-releases never mix numbers and words at one position are ordered consistently, strictness included |
| Versions.ComparableIsTransitive | crates/cli/src/update/resolve.rs:102-135 | a set of such versions, all plain releases included, is ordered transitively |
| Versions.CompareCanCycle | crates/cli/src/update/resolve.rs:117-135 | three pre-releases that run in a circle |
| PluginUpdate.FormatReadsBack | crates/cli/src/plugin_update.rs:342-360 | a marker reads back from its text exactly when its version is one word, the printed time included |
| PluginUpdate.ParseExactly | crates/cli/src/plugin_update.rs:345-360 | a text is a marker exactly when it is three words: a version, one of three phases, a number |
| PluginUpdate.Claim | crates/cli/src/plugin_update.rs:476-490 | the marker moves to running exactly when the row is still what was seen; else nothing changes |
| PluginUpdate.Finish | crates/cli/src/plugin_update.rs:495-518 | the recorded end is done exactly when nothing went wrong and, after an update, the plugin is known to have reached this binary; else it is failed |
| PluginUpdate.Write | crates/cli/src/plugin_update.rs:556-567 | the marker row after a write, all other rows kept |
| PluginUpdate.SettleSpawn | crates/cli/src/plugin_update.rs:637-646 | only a child that never started turns the claim into failed |
| PluginUpdate.DueExactly | crates/cli/src/plugin_update.rs:391-431 | an update is due exactly when updates are wanted, the installed version is older and the marker is free; only the record is left exactly when the plugin has reached this binary and no marker says so |
| PluginUpdate.ReasonIsTheFirst | crates/cli/src/plugin_update.rs:391-431 | a check that is not due names the first reason that applies |
| PluginUpdate.WriteSettlesTheNextCheck | crates/cli/src/plugin_update.rs:391-431 | read back through the store: with an older plugin the next check is due exactly ten minutes after a claim, a day after a failure, and never after done |
| PluginUpdate.EndSettlesTheNextCheck | crates/cli/src/plugin_update.rs:391-518 | after an attempt that ended well the next check is never due; after any other one it is due exactly when more than a day has passed |
| Lease.StepStores | crates/cli/src/plugin_update.rs:476-646 | a step of the protocol changes the marker by the four writes only, always for its own version, with the phase of its outcome |
| Lease.StepMoves | crates/cli/src/plugin_update.rs:391-732 | where each step takes its process |
| Lease.OthersStay | crates/cli/src/plugin_update.rs:391-732 | a step moves its own process only |
| Lease.FreeMarkerMeansNoAttempt | crates/cli/src/plugin_update.rs:391-490 | when a claim can win, no attempt is open and every earlier claim is stale |
| Lease.ClaimStep | crates/cli/src/plugin_update.rs:476-490 | a claim, won or lost, keeps the invariant of the protocol |
| Lease.EndStep | crates/cli/src/plugin_update.rs:508-567 | each write that ends an attempt keeps it |
| Lease.QuietStep | crates/cli/src/plugin_update.rs:697-732 | each other step keeps it: reads, checks, the detached child, crashes, time |
| Lease.AttemptsNeverOverlap | crates/cli/src/plugin_update.rs:391-567 | over every interleaving of processes of one version whose attempts end within the lease: no two attempts are open together, and any two won claims are more than the lease apart |
| Lease.TwoVersionsCanOverlap | crates/cli/src/plugin_update.rs:391-431 | for two versions, the one newer than the installed plugin: a timely run with two open attempts, by a claim of each version, or by a `done` of the other version between two claims of the first |
| Lease.OverlapExactly | crates/cli/src/plugin_update.rs:391-567 | over one installed plugin, timely runs of binaries of two given versions can overlap exactly when the versions differ and the plugin is older than one of them |
| Notices.Commit | crates/cli/src/notices.rs:141-158 | the key moves, and the line is returned, exactly when the key is still what was read |
| Notices.RecordShown | crates/cli/src/notices.rs:110-112 | the key names the recorded version, whatever it named before |
| Notices.StoreNotice | crates/cli/src/notices.rs:116-118 | the line is kept under its key |
| Notices.TakeNotice | crates/cli/src/notices.rs:122-135 | the line is returned once and leaves nothing behind |
| NoticeRuns.CommitKeepsInv | crates/cli/src/notices.rs:84-158 | a commit of any age keeps the invariant of the protocol |
| NoticeRuns.AloneIsCommitted | crates/cli/src/notices.rs:84-158 | a binary that prepares and commits before any other step leaves what that commit leaves, and a crash leaves nothing |
| NoticeRuns.RunKeepsInv | crates/cli/src/notices.rs:84-158 | over any interleaving of prepare, commit and record, the stored version never goes below any earlier one, when no record goes down and the order is transitive |
| NoticeRuns.NeverDownExactly | crates/cli/src/notices.rs:84-158 | over a transitive version set a run never goes down exactly when none of its records does, and then no line is shown twice |
| NoticeRuns.LoweringRun | crates/cli/src/notices.rs:84-158 | for any two versions, one below the other: an upgrade, a record of the lower one and the upgrade again go down and show one line twice |
| NoticeRuns.AnyRecordsExactly | crates/cli/src/notices.rs:84-158 | with records of any version, no run goes down or shows a line twice exactly when no version that runs is below another one |
| NoticeRuns.ShownOnceExactly | crates/cli/src/notices.rs:84-158 | never down and no line shown twice, over all interleavings whose records go up, exactly when the order is transitive on the versions that run |
| NoticeRuns.BrokenOrderRun | crates/cli/src/notices.rs:84-158 | from any break of transitivity, a run that goes down and shows a line twice |
| Pending.MergeListsEachSlugOnce | crates/cli/src/pending.rs:240-247 | the merged list holds each slug once though both lists may hold the range check |
| Pending.MergeHolds | crates/cli/src/pending.rs:240-247 | the merged list holds every plugin item and every migration item but the range check |
| Pending.MergeKeepsOrder | crates/cli/src/pending.rs:240-247 | migration items first, both lists in their order |
| Pending.MarkStore.WriteMarks | crates/cli/src/pending.rs:528-549 | the marks after one write, re-read inside its transaction |
| Pending.MarkStore.SessionNotice | crates/cli/src/pending.rs:480-515 | the new items in full, the due ones as reminders, each in list order; an unreadable store has no marks; a headless session writes nothing |
| Pending.MarkStore.Acknowledge | crates/cli/src/pending.rs:519-526 | every printed report item is settled |
| Pending.AckSurvivesExactly | crates/cli/src/pending.rs:528-549 | a settled item survives a write exactly when the list of the write holds its slug or the prune rule forbids dropping it |
| Pending.PruneNoneAllows | crates/cli/src/pending.rs:449-472 | exactly the two slugs the rule for dropping nothing still drops |
| Pending.PruneAllows | crates/cli/src/pending.rs:449-472 | which slugs a write may drop, for every rule |
| PendingInterleaved.AckIsForEver | crates/cli/src/pending.rs:434-549 | over any interleaving, a settled report item stays settled, stale sessions included, and no later session shows it |
| PendingInterleaved.AloneIsInOrder | crates/cli/src/pending.rs:480-515 | a session nothing comes between shows and writes what a session in order does; headless, killed or without a writable store it writes nothing |
| PendingInterleaved.AckIsInOrder | crates/cli/src/pending.rs:519-526 | an acknowledgement writes what one in order does, or nothing |
| PendingInterleaved.UnreadShowsAll | crates/cli/src/pending.rs:416-420 | a session that cannot read the marks shows every item in full |
| PendingInOrder.MarkAfterEvent | crates/cli/src/pending.rs:434-549 | what one session or acknowledgement does to the mark of a listed item |
| PendingInOrder.MarkFollowsHistory | crates/cli/src/pending.rs:434-549 | the mark holds exactly when the item was last seen and whether it was acknowledged |
| PendingInOrder.ShownOnceThenDaily | crates/cli/src/pending.rs:434-446 | an unchanged listed item shows in full exactly until first seen, and as a reminder exactly when a day passed since every time it was seen and it is not an acknowledged report |
| PendingInOrder.FullAtMostOnce | crates/cli/src/pending.rs:434-515 | at most one headed session shows it in full; a headless one changes no mark |
| Heal.RecordReadsBack | crates/cli/src/heal.rs:63-99 | a stored record reads back exactly when its versions are not empty and its ids are comma-free slugs |
| Heal.WriteRecord | crates/cli/src/heal.rs:85-99 | the rows after a write of the record |
| Heal.RecordClean | crates/cli/src/heal.rs:465-480 | a clean finish is recorded, or the store fault is reported; what the record then holds is HealMeaning.FinishRecords |
| Heal.HealNow | crates/cli/src/heal.rs:427-463 | the rows and the outcome of one migration run, lock and deadline included |
| Heal.RecheckPending | crates/cli/src/heal.rs:397-425 | the rows and the outcome when a hook only checks the waiting ids again |
| Heal.RunWith | crates/cli/src/heal.rs:316-392 | the rows and the outcome of a run, for every trigger |
| HealRuns.RunMovesTheRecord | crates/cli/src/heal.rs:316-480 | exactly when a run names this binary, stores a failure time, or leaves the record as it was |
| HealRuns.OutcomeTellsTheTruth | crates/cli/src/heal.rs:201-248 | a run that says it recorded did; the exit code of `doctor --fix` is 0 exactly on a clean finish without a failed step or after a downgrade, and else 1; a complete list means no migration was left undone |
| HealRuns.RecordGoesUp | crates/cli/src/heal.rs:316-480 | over any sequence of runs the recorded version never goes down, given a transitive order |
| HealRuns.NeverDownExactly | crates/cli/src/heal.rs:316-392 | that holds for all sequences exactly when the order is transitive on the versions that run |
| HealRuns.FailureStays | crates/cli/src/heal.rs:427-480 | a recorded failure time stays until the next failure or clean finish |
| HealRuns.NoEarlyRetry | crates/cli/src/heal.rs:346-392 | no hook and no first-run step starts migrations within a day of the last recorded failure |
| HealMeaning.FinishRecords | crates/cli/src/heal.rs:465-480 | after a clean finish the record reads back as this binary, the plugin found, schema 20, the open items the outcome lists, and no failure time |
| HealMeaning.FailureRecords | crates/cli/src/heal.rs:446-452 | a failed run stores its time and leaves the rest of the record |
| HealMeaning.RecheckRecords | crates/cli/src/heal.rs:397-425 | a recheck keeps exactly the waiting ids that are still open, in the order they are found |
| HealMeaning.OtherRunsKeepRows | crates/cli/src/heal.rs:316-392 | any other run leaves every row |
| HealMeaning.OtherRowsStay | crates/cli/src/heal.rs:316-480 | no run touches a row outside of the record |
| HealMeaning.OutcomeSays | crates/cli/src/heal.rs:316-480 | for every run: why it was skipped, what the migrations did, which items are open, whether the list is complete and whether it was stored |
| HealMeaning.CompleteExactly | crates/cli/src/heal.rs:246-248 | the list of open items is complete exactly after a finish without a failed step, or a hook on the binary of the record |
| HealMeaning.HookListsWhatTheFixLeft | crates/cli/src/heal.rs:397-480 | a clean fix and then a hook of the same binary list the same open items while they stay open |
| HealMeaning.FreshStoreStarts | crates/cli/src/heal.rs:63-110 | without a record every check and fix starts the migrations |
| HealMeaning.WaitingExactly | crates/cli/src/heal.rs:353-358 | a failure holds off checks until a day after its time |
| HealMeaning.OpenAmongHolds | crates/cli/src/init/migrate.rs:1351-1354 | the open items among some ids are those that are both |
| HealMeaning.WithoutStatuslineHolds | crates/cli/src/heal.rs:379-381 | setup without a status line lists all open items but that one |
| HealMeaning.OpenKeepsOrder | crates/cli/src/init/migrate.rs:1351-1369 | the open items stay in the order they are checked in |
| HealMeaning.SlugOfNumbered | crates/cli/src/init/migrate.rs:724-732 | a numbered id of an older release loses its number, any other id stays |
| HealOverlap.AloneIsHealed | crates/cli/src/heal.rs:316-363 | a run whose read and write have no step of another run between them is one whole heal |
| HealOverlap.NeverDownExactly | crates/cli/src/heal.rs:316-480 | over any interleaving of reads and writes by versions ordered transitively, the record never goes down exactly when no write finds a higher version recorded |
| HealOverlap.LoweringRun | crates/cli/src/init/migrate.rs:1395-1402 | two clean fixes: the older binary reads, the newer one reads and writes, the older one writes; the record goes down |
| HealOverlap.OverlapExactly | crates/cli/src/init/migrate.rs:1395-1402 | overlapping heals never lower the record exactly when no version that runs is below another one |
| Storage.NewFolder.CopyNew | crates/cli/src/storage.rs:199-216 | a whole file is put in place exactly when its name is free |
| Storage.NewFolder.CopyMissing | crates/cli/src/storage.rs:171-195 | ends with every listed entry copied where nothing was, or with a part of that and a reason; what was there is kept; the report lists what was copied, kept apart and skipped; an entry the listing drops is in none of these |
| Storage.WantedIs | crates/cli/src/storage.rs:176-193 | a file is wanted as it is, a folder as a folder, a link or a special file not at all |
| Storage.CopiesWhatItReaches | crates/cli/src/storage.rs:171-195 | a copy puts a path exactly when every entry on the way to it was listed |
| Storage.CopyIsWholeExactly | crates/cli/src/storage.rs:171-195 | a copy that ends well brought the whole folder exactly when every path it missed was there before |
| Storage.NewFolder.CopyFolder | crates/cli/src/storage.rs:118-119 | the same with the folder itself; a file of its name is the only error besides a stop |
| Storage.EntriesJoin | crates/cli/src/storage.rs:171-195 | two parts of a listing never want the same path, so their order does not matter |
| Storage.Sequel | crates/cli/src/storage.rs:171-195 | a copy that goes on after one part ends as the copy of the whole |
| Storage.ClashedExactly | crates/cli/src/storage.rs:185-190 | the files a report lists as kept apart are exactly those whose name already had something else |
| Storage.ReportIsTally | crates/cli/src/storage.rs:171-195 | the report counts the leaves a copy comes to: the new files, the ones that were there with something else in order, and the links and special files |
| Storage.LeavesAreWanted | crates/cli/src/storage.rs:171-195 | the files among those leaves are exactly the files the copy wants |
| Storage.ReportSame | crates/cli/src/storage.rs:157-164 | the report of a folder depends only on what was under it |
| Migration.ListingDoesNotMatter | crates/cli/src/storage.rs:89-101 | every listing of the repo's folder gives the same old folders in the same order |
| Migration.RepoFolder.Migrate | crates/cli/src/storage.rs:105-151 | for plans and implement, any run, over any part of the listing, keeps what its listed entries are expected to leave at every path, overwrites nothing and changes the listed old folders by their note only; an unstopped run ends well exactly when no folder to copy has the name of a file; for worktrees and handoff nothing changes |
| Migration.PartKeepsExpected | crates/cli/src/storage.rs:171-195 | a part of a copy does not change what the new folder will hold |
| Migration.ProgressKeepsExpected | crates/cli/src/storage.rs:105-151 | neither do the folders that are done |
| MigrationRuns.ChainKeepsExpected | crates/cli/src/storage.rs:105-216 | over any chain of runs, relisted in between, whose listings drop no entry, the expected contents stay and nothing held is lost |
| MigrationRuns.InterruptedRunsEqualOne | crates/cli/src/storage.rs:105-216 | when no listing drops an entry, any number of interrupted runs and then a completed one leave the same new folder as one uninterrupted run |
| MigrationRuns.NothingMissingExactly | crates/cli/src/storage.rs:105-195 | after a run that ends well the new folder has every path an old folder held exactly when each path the listings missed was there or came from another folder |
| MigrationRuns.LostExactly | crates/cli/src/storage.rs:105-195 | a run that ends well leaves a path to no later run exactly when the new folder did not have it, no folder it came to listed it, and no other old folder holds it |
| MigrationRuns.LostStaysLost | crates/cli/src/storage.rs:105-195 | no chain of runs brings such a path back, interrupted or not, whatever it lists |
| MigrationRuns.MigratesOneFile | crates/cli/src/storage.rs:45-50 | an unstopped run over one folder with one file: only plans and implement are copied, and no new folder; then the folder is marked and the file is in the new folder, or lost when its listing drops it |
| MigrationRuns.NothingComesBack | crates/cli/src/storage.rs:105-116 | a run whose folders are all done changes nothing of the new folder, so a removed file never comes back |
| Metrics.RoundDivMono | crates/code-bench/src/metrics.rs:20-22 | rounding keeps the order |
| Metrics.RoundDivIsNearest | crates/code-bench/src/metrics.rs:20-22 | the quotient is the nearest whole number, the higher one of two |
| Metrics.RatioOfPart | crates/code-bench/src/metrics.rs:24-26 | a share of a whole grows with the part and is at most 10,000 |
| Metrics.RatioIsNearest | crates/code-bench/src/metrics.rs:24-26 | a share is the nearest number of basis points, saturated at 32 bits |
| Metrics.DistinctOf | crates/code-bench/src/metrics.rs:28-31 | the first occurrence of each result, in order |
| Metrics.HitsAreSets | crates/code-bench/src/metrics.rs:33-38 | the counts are the sizes of the pooled sets |
| Metrics.SharesOfPooledSets | crates/code-bench/src/metrics.rs:42-52 | precision and recall are shares of those sets, missing exactly when their set is empty |
| Metrics.F1IsBetween | crates/code-bench/src/metrics.rs:55-59 | the rounded F1 lies between precision and recall, and the product of two shares fits in 64 bits |
| Metrics.F1IsNearest | crates/code-bench/src/metrics.rs:55-62 | F1 is the harmonic mean of the two shares, rounded, and 0 when both are 0 |
| Metrics.FirstRank | crates/code-bench/src/metrics.rs:64-70 | the least 1-based rank of a true result, or none |
| Metrics.AccGrows | crates/code-bench/src/metrics.rs:91-100 | the rounded Acc@k never falls as k grows |
| Metrics.MrrIsBetween | crates/code-bench/src/metrics.rs:77-100 | the rounded MRR lies between Acc@1 and Acc@k for every k at or above the largest first rank |
| Tokenizer.CountTokens | crates/code-bench/src/tokenizer.rs:23-36 | the loop counts runs of word characters rounded up and every other character |
| Tokenizer.SplitCostsAtMostOne | crates/code-bench/src/tokenizer.rs:23-36 | for any cut of a text the whole costs at most the sum of the parts and at least that sum minus one |
| Runner.Tally.Add | crates/code-bench/src/runner.rs:190-209 | the tally after one task; an output that does not parse changes nothing and is reported with its reason |
| Runner.NewHits | crates/code-bench/src/runner.rs:198-206 | a new task adds its own hits to the pooled sets and nothing of another task |
| Runner.AddKeepsExact | crates/code-bench/src/runner.rs:190-209 | with distinct task indices the running count stays the size of the pooled intersection |
| Runner.CellIsPooled | crates/code-bench/src/runner.rs:211-223 | so a cell holds shares of the pooled sets, never above 10,000 |
| Runner.RunTallyIsExact | crates/code-bench/src/runner.rs:244-266 | every tally of a run is exact |
| Runner.TallySplitsTasks | crates/code-bench/src/runner.rs:226-266 | it splits the tasks into the measured ones and exactly those without truth |
| Runner.TallyTask | crates/code-bench/src/runner.rs:252-263 | one turn of the task loop |
| Runner.TallyFailsExactly | crates/code-bench/src/runner.rs:252-263 | a tally fails exactly when the query of some task with truth does, with the reason of the first such task |
| Runner.MeasuredExactly | crates/code-bench/src/runner.rs:244-266 | a repo is measured exactly when its checkout, its index and every query of a task with truth worked |
| Runner.RunRepo | crates/code-bench/src/runner.rs:244-266 | the cells of both kinds, or the reason of the first step that failed |
| Runner.Run | crates/code-bench/src/runner.rs:272-303 | one row for each job in order, measured with its cells or failed with its reason, or a refused task set version |
| Runner.RowIsSound | crates/code-bench/src/runner.rs:244-303 | a row is about its repo; it is measured, with both kinds once, exactly when every step worked; each cell counts the tasks with truth and those without, and holds the shares of the right results in all returned and in all true ones, the total bytes and tokens of their outputs, and the bytes for each right result |
| Runner.TruthIs | crates/code-bench/src/runner.rs:226-236 | the truth of a symbol query is the task's own place, of a reference query the oracle's |
| Runner.OutcomeBlames | crates/code-bench/src/runner.rs:244-266 | the reason of a repo that is not measured is that of its first failed step |
| Runner.BlamedSays | crates/code-bench/src/runner.rs:256-262 | the reason of a failed query names its command, its task and why |
| Runner.CostsAreNotZero | crates/code-bench/src/runner.rs:190-223 | a cell of the runner with a correct result has no cost that rounds to zero, given that each parsed result takes a byte and a token of the output |
| Gate.CollectBaseline | crates/code-bench/src/gate.rs:268-300 | the drops and cost rises of one cell against the baseline, in order |
| Gate.CollectFloor | crates/code-bench/src/gate.rs:301-326 | its drops against the floor |
| Gate.CollectRepo | crates/code-bench/src/gate.rs:328-352 | the failures of one row, waivers first |
| Gate.CollectRemoved | crates/code-bench/src/gate.rs:362-369 | the removed tasks without an unexpired override |
| Gate.Evaluate | crates/code-bench/src/gate.rs:354-382 | every failure of the run, in the order they are found |
| GateRules.RiseIsReportedExactly | crates/code-bench/src/gate.rs:231-266 | a cost regression is reported exactly when the cost passes its allowance, and for a zero baseline the rise too |
| GateRules.ReportedRiseExceedsAllowance | crates/code-bench/src/gate.rs:231-266 | with a baseline cost of at least 1 the first test decides alone and the rounded-up rise is above its allowance |
| GateRules.RunnerBaselineDecidesAlone | crates/code-bench/src/gate.rs:231-266 | so against a baseline cell the runner wrote, a cost regression is reported exactly when the cost passes its allowance |
| GateRules.ZeroBaselineCanRise | crates/code-bench/src/gate.rs:231-266 | a cell whose cost rises from zero, with shares that rise enough, has no failure though the rise passes any share of the baseline |
| GateRules.SomeRiseFromZero | crates/code-bench/src/gate.rs:231-248 | two such cells: ten correct results in one byte, then forty in forty bytes |
| Gate.TooDearRises | crates/code-bench/src/gate.rs:240-247 | the subtraction of the rise never underflows |
| GateRules.CellPassesExactly | crates/code-bench/src/gate.rs:268-326 | a cell has no failure exactly when it is within the drops granted by overrides and within its cost rises |
| GateRules.DeltaIsGranted | crates/code-bench/src/gate.rs:161-169 | the allowed drops are the totals, precision and recall apart, over exactly the overrides in force for the repo and kind |
| GateRules.AllowedForGain | crates/code-bench/src/gate.rs:228-248 | two basis points of cost are allowed for each one gained, and 50 without a gain; a share that fell takes nothing off |
| GateRules.ActiveExactly | crates/code-bench/src/gate.rs:155-159 | an id is excused exactly when some override with it has not expired |
| GateRules.RowsPassExactly | crates/code-bench/src/gate.rs:370-381 | rows have no failure exactly when each has none |
| GateRules.GatePassesExactly | crates/code-bench/src/gate.rs:354-382 | the gate passes exactly when its rule holds: same version, no removed task without an override, every row waived or measured and within bounds, every baseline repo present or waived |
| GateMeaning.CellFailuresSay | crates/code-bench/src/gate.rs:231-326 | a cell regression is reported exactly when what it says is so: metric, reference, the observed fall, or the rise rounded up, and the allowance |
| GateMeaning.FailuresSayWhatIsSo | crates/code-bench/src/gate.rs:268-382 | the judge is sound and complete, number by number, for every kind of failure |
| GateRules.PassingKeepsTheBaseline | crates/code-bench/src/gate.rs:354-382 | a passing gate on a runner report lost no unwaived repo or cell of the baseline |
| GateRules.DeltaShrinks | crates/code-bench/src/gate.rs:161-169 | the allowed drops only shrink as the date moves on |
| GateRules.LaterDateOnlyAdds | crates/code-bench/src/gate.rs:153-382 | a later run date keeps every failure, up to its numbers |
| Scope.ScopeToLanguage | crates/code-bench/src/scope.rs:21-33 | the rows, waivers and floor cells of the repos of one language, order kept |
| Scope.KeptMembers | crates/code-bench/src/scope.rs:28-31 | narrowing keeps exactly the members of the language |
| Scope.LegJudgesAlike | crates/code-bench/src/gate.rs:328-352 | a leg finds the same failures in a row of its language as the whole gate |
| Scope.LegsAddUp | crates/code-bench/src/main.rs:107-144 | together the legs find each row's failures exactly as often as a leg runs its repo |
| Scope.LegsFindTheSame | crates/code-bench/src/main.rs:107-144 | with one manifest entry for each repo, the failures of all legs are those of the whole gate, each as often |
| Scope.LegsPassExactly | crates/code-bench/src/main.rs:107-144 | all legs pass exactly when nothing global fails and every row some leg runs passes |
| Scope.ShardedVerdict | crates/code-bench/src/main.rs:107-144 | the sharded verdict is the whole verdict when every repo of the report is run by some leg, and every repo of the baseline is or is waived |
| Scope.VerdictsAgreeExactly | crates/code-bench/src/main.rs:107-144 | the two verdicts agree on all reports of repos some leg runs exactly when every unwaived baseline repo is run by some leg, or a removed task fails both |
| Scope.UnlistedRepoIsLost | crates/code-bench/src/scope.rs:10-17 | a missing baseline repo no leg runs fails the whole gate and no leg |
| Scope.ValidManifestListsOnce | crates/code-bench/src/corpus.rs:136-138 | a valid manifest lists a repo once, whenever it lists it |
| MergeBase.CollectLowered | crates/code-bench/src/merge_base.rs:115-142 | the cells of one file that are lower now and have no unexpired override |
| MergeBase.Check | crates/code-bench/src/merge_base.rs:147-171 | every failure of every file, in order |
| MergeBase.LoweredSaysWhatIsSo | crates/code-bench/src/merge_base.rs:129-141 | the cells named as lowered are exactly those not held and not excused, under their own id |
| MergeBase.HoldsExactly | crates/code-bench/src/merge_base.rs:129-132 | a cell is held exactly when the first cell of its repo and kind is lower in neither share |
| MergeBase.CellsOfExactly | crates/code-bench/src/merge_base.rs:91-113 | which texts parse, and the protected cells are exactly those of the document |
| MergeBase.CellIdTells | crates/code-bench/src/merge_base.rs:133-133 | the id of a cell names its file, repo and kind, and no other cell has it |
| MergeBase.ExcusesOneCell | crates/code-bench/src/merge_base.rs:133-134 | an override excuses the one cell whose id it has |
| MergeBase.CheckPassesExactly | crates/code-bench/src/merge_base.rs:115-171 | the check passes exactly when each file has a merge base and, where it was, still parses and holds every cell as high or excused |
| MergeBase.NeverDeleted | crates/code-bench/src/merge_base.rs:161-163 | over a checked history a file is never deleted, and no override allows it |
| MergeBase.Ratchet | crates/code-bench/src/merge_base.rs:115-171 | between any two versions of a checked history a cell does not disappear and neither share falls, duplicates included, while its override is never active |
| MergeBase.FloorReadsFirst | crates/code-bench/src/gate.rs:306-312 | the floor cell the gate reads is the one the check protects |
| MergeBase.CheckFindsExactly | crates/code-bench/src/merge_base.rs:129-131 | the check finds a cell exactly when some row of the repo has one of that kind |
| MergeBase.BaselineReadsFirst | crates/code-bench/src/gate.rs:72-75 | gate and check read the same baseline cell exactly when the gate reads one or no row of the repo has a cell of that kind |
| MergeBase.SecondRowIsOnlyProtected | crates/code-bench/src/gate.rs:72-75 | a baseline with two rows of one repo, whose cell the gate does not read and the check protects |
| Tasks.Shuffle | crates/code-bench/src/tasks.rs:90-97 | the in-place swaps are the seeded shuffle of the old contents |
| Tasks.ShuffleKeepsItems | crates/code-bench/src/tasks.rs:90-97 | the shuffle is a permutation, whatever its seed |
| Tasks.EveryOrderIsReached | crates/code-bench/src/tasks.rs:90-97 | every order of the items is the shuffle of some generator |
| Tasks.KnownNumbers | crates/code-bench/src/tasks.rs:76-81 | the generator gives the known first numbers of SplitMix64 from the seed 0 |
| Tasks.KnownHash | crates/code-bench/src/tasks.rs:83-88 | the hash of one letter is its known 64-bit FNV-1a value |
| Tasks.LetterBytes | crates/code-bench/src/tasks.rs:83-88 | that letter is the byte of its ASCII code |
| Tasks.SeedMixesLabel | crates/code-bench/src/tasks.rs:83-88 | a stream starts at the seed mixed with the hash of its label, so two seeds never start one label alike |
| Tasks.HashOfParts | crates/code-bench/src/tasks.rs:83-88 | a label is hashed byte by byte of its characters, from the left |
| Tasks.Utf8ReadsBack | crates/code-bench/src/tasks.rs:83-88 | the bytes a label is hashed as decode to its characters, in the shortest form |
| Tasks.CollectTiers | crates/code-bench/src/tasks.rs:112-128 | the pool of each kind, in id order, the first symbol of an id kept |
| Tasks.Generate | crates/code-bench/src/tasks.rs:104-144 | the sorted picks of every repo and kind |
| Tasks.CheckIds | crates/code-bench/src/tasks.rs:148-158 | rejects a task list exactly when an id is listed twice, and names one that is |
| TaskRules.IdTellsTier | crates/code-bench/src/tasks.rs:99-101 | an id tells its repo, when neither name nests in the other, and then its kind |
| TaskRules.IdsAreSharedExactly | crates/code-bench/src/tasks.rs:99-101 | symbols of two repos can share an id exactly when one name is the other one, a slash and a kind, and then ends or goes on with a slash |
| TaskRules.SlashesCollide | crates/code-bench/src/tasks.rs:99-101 | parts after the kind can move between the repo name and the symbol name without changing the id |
| TaskRules.PoolHoldsFirsts | crates/code-bench/src/tasks.rs:112-128 | a pool is strictly increasing and holds exactly the first symbol of each distinct id |
| TaskRules.GenerateIsExact | crates/code-bench/src/tasks.rs:104-144 | with distinct, unnested repo names: ids strictly increase, every task is the first symbol of its repo with its id, each repo and kind has as many tasks as distinct ids up to 25 |
| TaskRules.GeneratedParses | crates/code-bench/src/tasks.rs:104-158 | the duplicate check accepts what the generator writes for such names |
| TaskRules.GeneratedIdsAreUniqueExactly | crates/code-bench/src/tasks.rs:104-158 | generated ids are unique for all symbols exactly when the repo names are distinct and none nests in another |
| TaskRules.RejectedSet | crates/code-bench/src/tasks.rs:104-158 | the repos `a` and `a/function` with one symbol each, whose generated set the duplicate check rejects |
| Corpus.Validate | crates/code-bench/src/corpus.rs:118-141 | accepts exactly the manifests with tool versions, pinned and licensed repos and distinct names, and else names the first fault |
| Corpus.PinnedExactly | crates/code-bench/src/corpus.rs:125-135 | a repo is pinned by forty hex digits and has one of five licenses |
| Corpus.FindCrlf | crates/code-bench/src/corpus.rs:249-268 | a path to a CRLF text file outside `.git`, or that everything could be read and there is none, or an unreadable entry |
| Corpus.IsCrlfTextExactly | crates/code-bench/src/corpus.rs:261-264 | a file counts when its first 8 KiB have no zero byte and a CRLF is anywhere in it |
| Corpus.SearchFolder | crates/code-bench/src/corpus.rs:252-266 | one folder of the worklist: what is left to search still covers everything under the root, and its size falls |
| Corpus.Fetch | crates/code-bench/src/corpus.rs:208-246 | clones stop at the first that works and at three, with waits of 2 and 4 between them; it succeeds exactly with a cached commit or a sound clone moved to its place, and else touches only the partial folder, which a failed fetch leaves as the last clone did or removes; killed before any change, it has done no more than that |
| Corpus.ReadyExactly | crates/code-bench/src/corpus.rs:214-217 | a commit is cached when a folder has its name |
| Corpus.FetchAddsOnlyClones | crates/code-bench/src/corpus.rs:208-246 | a fetch, killed or not, adds at most a sound clone of its own commit |
| Corpus.CacheStaysClean | crates/code-bench/src/corpus.rs:208-246 | over any sequence of fetches and kills, a cached commit was there at the start or is a sound clone of that commit |
| Brief.ParseWus | crates/cli/src/brief.rs:60-82 | the Work Units of the plan's sections, in file order |
| Brief.PlanSectionsAreExact | crates/cli/src/brief.rs:60-82 | sections are disjoint and ordered, each from a level 3 or 4 Work Unit heading to just before the first later heading of the same or a higher level, and no Work Unit heading is outside them |
| Brief.BlockIsLongest | crates/cli/src/brief.rs:246-256 | the block is the longest prefix of the facts within the budget, empty exactly when none is |
| BriefReading.LinesAre | crates/cli/src/brief.rs:61-61 | a plan is read line by line, the return of a CRLF and the empty text after the last end left out |
| BriefReading.HeadingExactly | crates/cli/src/brief.rs:37-40 | a line is a heading of a level exactly when that many hashes and a space open it |
| BriefReading.LevelsExactly | crates/cli/src/brief.rs:64-76 | a heading starts a Work Unit at level 3 or 4 when it names one, and ends sections of its level and below |
| BriefReading.SplitWuExactly | crates/cli/src/brief.rs:43-51 | a text names a Work Unit exactly when it has the prefix and at least one id character |
| BriefReading.IdCharsAre | crates/cli/src/brief.rs:45-47 | an id is made of ASCII letters, digits and dots |
| BriefReading.NameReadsBack | crates/cli/src/brief.rs:43-57 | id, marks and title written one after the other read back as that id and title |
| BriefReading.WuSays | crates/cli/src/brief.rs:77-79 | a Work Unit has the id and title of its heading and the text of its section without the blanks after it |
| BriefReading.TrimIs | crates/cli/src/brief.rs:39-55 | trimming takes off the blanks around a text and nothing else |
| BriefReading.BlockReadsBack | crates/cli/src/brief.rs:246-256 | the block of facts is a heading and one line for each fact, in order |
| Segment.Slug | crates/cli/src/segment.rs:26-37 | the loop builds, cuts and trims the dashed title |
| Segment.KeptCharacters | crates/cli/src/segment.rs:26-37 | exactly ASCII letters and digits are kept |
| Segment.LoweredCharacters | crates/cli/src/segment.rs:26-37 | an upper-case letter is kept as its lower-case partner |
| Segment.SlugIsNormalForm | crates/cli/src/segment.rs:26-37 | slugs are exactly the bounded dashed texts the function leaves alone, so it is idempotent |
| Segment.SplitIsLastFitting | crates/cli/src/segment.rs:143-149 | the split is the last commit before the first one over the limit |
| Segment.SplitIsNewestExactly | crates/cli/src/segment.rs:141-149 | it is the newest commit within the limit exactly when no later commit comes back under it |
| Segment.Repo.Resplit | crates/cli/src/segment.rs:156-184 | no branch tip is lost in any outcome, other branches are untouched, and exactly when it succeeds the trimmed branch is at a commit within the limit and the whole run is kept under the other name |

## Left out

- Integer widths: counts, costs and times are unbounded; the protocol theorems ask for clocks below 2^64 where a time is printed and read back.
- Clocks that go back in the protocol theorems, and a hand-started `update --refresh-plugin`, which makes no claim.
- JSON, SQLite, git, `gh`, the `claude` command and real files: their results are inputs, and a table transaction is one atomic step.
- The text of notices, warnings, reports, briefs and `MOVED.txt`: only what it is computed from is modelled.
- The item fingerprint is an abstract value; two items are unchanged when their fingerprints are equal.
- The migration runner and its open items are an input of a heal run; `slug_of` cuts a prefix of fixed length from the ids of a given set.
- Heal.RunWith: the notices and warnings of an outcome are not modelled, because they are text about the steps that ran.
- PendingInOrder.ShownOnceThenDaily: every session can read and write the marks; a session that cannot read them shows each item in full again.
- Metrics.F1IsBetween: holds for any two 32-bit numbers; the source's 64-bit product would overflow from about 2^31 on, far above any share.
- `migrate_handoffs` and `handoff_root`: the same `copy_new` over one flat folder, with one marker file for each directory.
- Temporary files and modified times of `copy_new`: a file appears whole or not at all.
- Storage.NewFolder.CopyMissing: a folder that cannot be opened, an entry whose type cannot be read and a file that cannot be copied are not told apart from a run that stops; two files that cannot be compared are not modelled.
- Corpus.FindCrlf: the tree is what the links of a checkout unfold to, with a broken node where the system stops to follow them; a folder that cannot be listed to its end cannot be listed at all.
- Tokenizer.CountTokens: a text is the sequence of the classes of its characters (word, white space, other); which character has which class is Unicode data.
- `is_date` and the other checks of the override file when it is read: the date theorem holds for any texts compared as texts.
- `files_of`, `overlaps`, `relevant_facts` and `index_facts` of a brief, and `branch` of a Segment: easy filters and one git command each.
- The mutation floor, the routing and fast-path tables, ADR and plan files, memory statistics, the command tree and the completions: finite tables or one-branch rules.
