# Verification of the launcher and the enemy planner

A Dafny model of the parts of the DOOM Eternal Archipelago launcher and content planner that carry an algorithm or a
protocol, with proofs of what they promise. `dafny verify dfyconfig.toml` checks all of it.

| file | what it models |
|---|---|
| `CoreInstall.dfy` | the journaled replacement of the three connection files, its recovery and its rollback, with a crash possible after every file-system call |
| `Workers.dfy` | the worker lane as a transition system over all interleavings: generations, cancellation, publications, serialized work |
| `EmissionAllocation.dfy`, `SubsetSum.dfy`, `BodyDraw.dfy`, `NativeRecipes.dfy` | from an emission target to frozen recipes: optimal allocation, apportionment, selection by category, the draw, the recount and the credit arithmetic |
| `BudgetMoves.dfy`, `RenewablePool.dfy` | scaling a budget, moving threats to fodder, reserving ammunition, and the renewable pool these make room in |
| `PopulationCaps.dfy`, `ProfileMemo.dfy`, `SpeciesShares.dfy`, `Rationals.dfy` | the capped draw of a phase, sampling by profile, exact draw shares and density weights over exact fractions |
| `ValidationCache.dfy` | the bounded cache in front of recipe validation |
| `ResourceMask.dfy`, `ResourceActivation.dfy`, `Publication.dfy` | activating records in the container mask, relocating the mapping, publishing several files with rollback |
| `KillAlternatives.dfy` | collapsing alternative kill sources to their guaranteed minimum |
| `LogRetention.dfy`, `ConsoleExcerpt.dfy` | the bounded excerpts of oversized logs |
| `RegionTopology.dfy` | reachability of the declared regions |
| `Foundations.dfy` | results, sums, counters and sorting shared by the others |

Conventions. A single write, rename or removal of a file is atomic and may fail. "Undisturbed" means that no call fails and no
other program interferes, "quiet" only that no other program writes. A content digest is ideal: equal digests
mean equal contents. Random draws are parameters: any permutation for a shuffle, any number below the bound for a roll, a
fixed function of field and range for one seed. Fractions are exact. Integers are unbounded except where the program checks
or packs a width (31-bit recipe numbers, 32- and 64-bit mask words).

Where the code does less than its description suggests, the model follows the code:

* Without a source whose logical count equals its maximum emissions, the allocation may miss the target
  (`EmissionAllocation.TargetOutOfReach`); it hits the target exactly when some vector of counts does
  (`EmissionAllocation.AllocationHitsAttainable`), and every target exactly when some source emits something and at most once
  per body (`EmissionAllocation.EveryTargetAttainable`).
* A publication checks a file and replaces it in separate calls (`doom_eap/launcher/campaign_resources.py:205-216`), and on
  Windows the replacement waits for sharing violations to end (`doom_eap/launcher/launcher_platform.py:800-811`). What
  another program writes in between is overwritten (`Publication.ForeignBytesLost`); a replacement overwrites only what it may
  if and only if nothing was written to that file in between (`Publication.JustifiedUnlessTouched`).
* An index row that lies inside the mask it describes is written after the mask and may undo the activation
  (`ResourceMask.RowUndoes`, `ResourceMask.RowOverMask`); `ResourceMask.PlaceMask` states exactly when the new mask survives.
* The console excerpt keeps the last encounter event whenever that event is a whole line
  (`ConsoleExcerpt.LastEventIsKept`); a piece of a line longer than one read survives exactly under the condition of
  `ConsoleExcerpt.PieceSurvives`, and a large file without line breaks keeps nothing (`ConsoleExcerpt.EndlessLineIsLost`).
* After `active.json` is gone and before the marker is, recovery raises unless the files are the version the previous record
  installed (`CoreInstall.MarkerWithoutJournal`), as between the two removals that end the undoing of a first update
  (`CoreInstall.UndoneFirstUpdateIsRefused`, `CoreInstall.Installation.UndoneFirstUpdateExample`); the files themselves are one whole
  version.

## Model

| member | source | states |
|---|---|---|
| `CoreInstall.Installation.constructor` | doom_eap/launcher/launcher_core_install.py:89-96 | An installation starts from any disk, with no call committed yet. |
| `CoreInstall.Installation.Commit` | doom_eap/launcher/launcher_core_install.py:55-60 | One write, rename or removal is atomic: it either happens and is added to the history of disk states, or fails and changes nothing. |
| `CoreInstall.Installation.GameMayRun` | doom_eap/launcher/launcher_core_install.py:109-110 | The process check may answer either way unless nothing disturbs the machine; the moments at which it found the game closed are kept. |
| `CoreInstall.Installation.Check` | doom_eap/launcher/launcher_core_install.py:43-54 | For a record of any folder and any two versions: restoring is permitted if and only if the folder is this one, the saved originals are the recorded ones and every current file equals one of its two versions; without a record it is not. |
| `CoreInstall.Installation.Restore` | doom_eap/launcher/launcher_core_install.py:41-60 | For a record of any folder and any two versions: where the folder is another one, a saved original differs, or a current file is neither version, it raises and writes nothing; otherwise, undisturbed, it returns. It passes only through disks on which each file is what it was or its original, and ends with all originals when it returns. |
| `CoreInstall.Installation.RecoverInterrupted` | doom_eap/launcher/launcher_core_install.py:63-86 | For an active backup recorded for any folder and any two versions: undisturbed, recovery returns if and only if the token is well formed, the folder is this one, the saved originals are the recorded ones and every game file equals one of the two versions; otherwise it raises and disk and history are unchanged. A recovery that returns leaves no journal and no marker, with all originals if a journal was active and untouched files otherwise. |
| `CoreInstall.Installation.RecoverJournal` | doom_eap/launcher/launcher_core_install.py:66-73 | The journal branch of recovery, with the same exact condition, at every crash point. |
| `CoreInstall.Installation.RetireMarker` | doom_eap/launcher/launcher_core_install.py:74-86 | The marker branch: it removes the marker only for a finished update whose files are the recorded incoming ones. |
| `CoreInstall.Installation.SavePart` | doom_eap/launcher/launcher_core_install.py:97-103 | Copying one file of either version touches only a backup directory that nothing names yet. |
| `CoreInstall.Installation.SaveBackup` | doom_eap/launcher/launcher_core_install.py:93-104 | The new backup directory ends with both versions and their digests, and at every crash point before that the game files and records are untouched. |
| `CoreInstall.Installation.Install` | doom_eap/launcher/launcher_core_install.py:108-113 | At every point of the write loop each file is its original or its incoming version while the journal is active; finishing means all incoming; every write directly follows a check that found the game closed. |
| `CoreInstall.Installation.Undo` | doom_eap/launcher/launcher_core_install.py:114-119 | The exception path ends either with the journal still active or with all originals; an undo that removes the journal passes through the disk that has all originals and still the marker; it writes nothing unless it first found the game closed. |
| `CoreInstall.Installation.ReplacePair` | doom_eap/launcher/launcher_core_install.py:89-122 | Every disk state a replacement passes through is one the journal protocol allows; success means all three incoming files, no journal, no marker, and a previous record naming the new backup; a failure without journal leaves the originals unless the journal had already become the previous record; a first update that fails and is undone passes through a disk with the original files that recovery refuses; undisturbed, it succeeds unless the new backup directory already exists. |
| `CoreInstall.Installation.RollbackCore` | doom_eap/launcher/launcher_core_install.py:125-140 | A rollback that succeeds leaves the originals saved by the replacement that the previous record named, and every state on the way is safe; undisturbed, and unless its backup directory already exists, it succeeds if and only if the disk is recoverable and a previous record names a backup with all originals. |
| `CoreInstall.Installation.ReplaceThenRollback` | doom_eap/launcher/launcher_core_install.py:89-140 | A finished rollback undoes a finished replacement. |
| `CoreInstall.Installation.RunCall` | doom_eap/launcher/launcher_core_install.py:63-140 | One replacement, recovery or rollback keeps every disk state safe, including the ones between its calls. |
| `CoreInstall.Installation.PowerLoss` | doom_eap/launcher/launcher_core_install.py:63-73 | Falling back to any disk state since an operation began is falling back to a safe one. |
| `CoreInstall.Installation.Lifetime` | doom_eap/launcher/launcher_core_install.py:41-140 | Over any sequence of replacements, recoveries and rollbacks, each cut short anywhere by a crash, the game files are one whole known version whenever no journal is active, and otherwise each file is one of the two versions the journal can restore; every disk with a journal on the way is recoverable. |
| `CoreInstall.ReplaceIsAtomic` | doom_eap/launcher/launcher_core_install.py:105-121 | Any disk a replacement can leave behind mixes versions only under a journal that names a faithful backup of both. |
| `CoreInstall.ReplaceIsSafe` | doom_eap/launcher/launcher_core_install.py:89-122 | A replacement step keeps the whole-run invariant. |
| `CoreInstall.RecoveryIsAtomic` | doom_eap/launcher/launcher_core_install.py:63-86 | A crash inside recovery leaves a disk that recovery can start from again. |
| `CoreInstall.RecoveryIsSafe` | doom_eap/launcher/launcher_core_install.py:63-86 | A recovery step keeps the whole-run invariant. |
| `CoreInstall.RestoreAccepts` | doom_eap/launcher/launcher_core_install.py:43-54 | The comparison of digests that restoring makes, in terms of the files: the folder, the saved originals, and each current file one of the two versions. |
| `CoreInstall.RetireAccepts` | doom_eap/launcher/launcher_core_install.py:75-86 | A marker is retired if and only if it holds its fixed text, the last update was in this folder, and every game file is there and equals the recorded incoming one. |
| `CoreInstall.TokenText` | doom_eap/launcher/launcher_core_install.py:69 | A token is thirty-two characters, each a digit or a letter from a to f. |
| `CoreInstall.JournalCanBeRecovered` | doom_eap/launcher/launcher_core_install.py:66-73 | Every journaled disk that only a replacement has written is recoverable. |
| `CoreInstall.SafeJournalRecovers` | doom_eap/launcher/launcher_core_install.py:66-73 | Every safe disk with a journal is recoverable, whatever history led to it. |
| `CoreInstall.FinishedIsIncoming` | doom_eap/launcher/launcher_core_install.py:75-86 | What recovery accepts as finished is the recorded incoming version of every file. |
| `CoreInstall.MarkerWithoutJournal` | doom_eap/launcher/launcher_core_install.py:72-86 | A marker without a journal: the files are one whole version, and recovery returns if and only if they are the version the previous record installed; without a previous record it raises. |
| `CoreInstall.UndoneFirstUpdateIsRefused` | doom_eap/launcher/launcher_core_install.py:69-86 | Without a previous record, the disk between the two removals that end an undo holds the original files, and recovery raises on it. |
| `CoreInstall.Installation.UndoneFirstUpdateExample` | doom_eap/launcher/launcher_core_install.py:114-119 | One run of the exception path, on the first update of an empty folder: its history holds a disk with the original files that recovery refuses. |
| `Workers.StepKeepsInv` | doom_eap/launcher/launcher_workers.py:13-122 | Every step of every thread keeps the invariant on locks, registry, generations, cancellation and the serialized lane. |
| `Workers.RunExtends` | doom_eap/launcher/launcher_workers.py:13-122 | A run goes on with any step that its last state allows. |
| `Workers.RunInv` | doom_eap/launcher/launcher_workers.py:35-122 | The invariant holds in every state of every interleaving from the initial one. |
| `Workers.PublicationIsCurrent` | doom_eap/launcher/launcher_workers.py:28-32 | A publication is running only for the registered, uncancelled job of the current generation of an open lane. |
| `Workers.LiveJobIsCurrent` | doom_eap/launcher/launcher_workers.py:74-110 | A live uncancelled job is registered, and current unless a retirement is about to cancel it. |
| `Workers.OneUncancelledJobPerKey` | doom_eap/launcher/launcher_workers.py:83-107 | Two live uncancelled jobs never share a key. |
| `Workers.SerializedNeverOverlap` | doom_eap/launcher/launcher_workers.py:66-72 | At most one thread is inside serialized work, whether as a job or through the try operation. |
| `Workers.LaneIsHeld` | doom_eap/launcher/launcher_workers.py:66-97 | The lane belongs to a serialized job from its start to the end of its operation and to a thread inside a try operation; a try operation is entered if and only if no other thread has the lane. |
| `Workers.TryUndone` | doom_eap/launcher/launcher_workers.py:66-72 | Leaving a try operation undoes entering it: lane, nesting and everything else are as before. |
| `Workers.TryExitEnabled` | doom_eap/launcher/launcher_workers.py:66-72 | A thread between calls can leave a try operation if and only if it is inside one. |
| `Workers.LiveWorkersAreRetained` | doom_eap/launcher/launcher_workers.py:101-109 | The retained threads are exactly the workers that have not finished. |
| `Workers.RetiredJobKeepsItsReplacement` | doom_eap/launcher/launcher_workers.py:101-107 | A registry entry disappears only by its own job finishing, and is displaced only once that job is cancelled. |
| `Workers.LockHoldersCanStep` | doom_eap/launcher/launcher_workers.py:28-118 | The two internal locks never deadlock: the holder of the registry lock always has a step, and so has the holder of the publication lock once the registry lock is free. |
| `Workers.RunForward` | doom_eap/launcher/launcher_workers.py:74-78 | Along every run generations never fall, closing is permanent, and no job is uncancelled. |
| `Workers.GenerationCountsRetirements` | doom_eap/launcher/launcher_workers.py:74-78 | In every run the generation is the number of retirements so far. |
| `Workers.RetirementIsFinal` | doom_eap/launcher/launcher_workers.py:74-78 | Once a retirement has advanced the generation, no job submitted before is publishing in any later state. |
| `Workers.ClosedIsSilent` | doom_eap/launcher/launcher_workers.py:112-118 | From the moment the lane is closed nothing is published and no job is submitted. |
| `Workers.NoSubmissionWhenClosed` | doom_eap/launcher/launcher_workers.py:82-87 | No step of a closed lane adds a job. |
| `Workers.RetireAdvanceKeeps` | doom_eap/launcher/launcher_workers.py:75-78 | A retirement starts out with every registered job to cancel, all of them live, and keeps the invariant from the moment the generation advances. |
| `Workers.RetirementAdvances` | doom_eap/launcher/launcher_workers.py:74-78 | A retirement adds exactly one to the generation, closes the lane if and only if it is a closing one or the lane was closed, and sets out to cancel exactly the registered jobs. |
| `Workers.OnlyRetirementCancels` | doom_eap/launcher/launcher_workers.py:74-78 | A step changes a job's cancellation only if it is the step of a retirement that names that job, and generation and closing only if it is the advance of a retirement. |
| `Workers.RetirementProceeds` | doom_eap/launcher/launcher_workers.py:76-78 | Each cancellation leaves exactly that job fewer to cancel, and the registry lock is given up if and only if none is left. |
| `Workers.FinalExitKeeps` | doom_eap/launcher/launcher_workers.py:100-104 | A finishing job removes its own registry entry and no other. |
| `Workers.SubmitDecideKeepsJob` | doom_eap/launcher/launcher_workers.py:82-110 | Submitting keeps every live uncancelled job registered and current. |
| `Workers.SubmissionDecision` | doom_eap/launcher/launcher_workers.py:82-110 | On registry, job table and threads: a closed lane, an expected generation other than the current one, or an uncancelled registered job of the key leaves all three unchanged; otherwise exactly one job is added, with the key and mode of the call and the current generation, registered under the key and its thread retained. |
| `Workers.SubmissionAccepted` | doom_eap/launcher/launcher_workers.py:82-110 | In every reachable state a stale submission adds nothing, and a job is added if and only if the lane is open, the expected generation is absent or current, and no live uncancelled job has the key. |
| `Workers.PublishCheckKeeps` | doom_eap/launcher/launcher_workers.py:30-32 | The check under the publication lock lets only an uncancelled job publish. |
| `Workers.WorkerEntry` | doom_eap/launcher/launcher_workers.py:93-97 | A worker starts if and only if its job is not serialized or the lane is free, and takes the lane exactly if it is serialized; the operation begins, and a publication commits, if and only if the job is not cancelled. |
| `Workers.RetireCancelKeeps` | doom_eap/launcher/launcher_workers.py:77-78 | Cancelling the jobs one at a time keeps the invariant in between. |
| `EmissionAllocation.EmissionsWithin` | doom_eap/content/native_enemy_balance.py:163-164 | Emissions fit a bound if and only if the cross-multiplied quota does. |
| `EmissionAllocation.RangeLosesNothing` | doom_eap/content/native_enemy_balance.py:190-191 | The range of body counts holds exactly those whose emissions fit the target. |
| `EmissionAllocation.Choices` | doom_eap/content/native_enemy_balance.py:190-191 | The choices are all fitting counts, each with its emissions, in ascending order of emissions. |
| `EmissionAllocation.OfferCounts` | doom_eap/content/native_enemy_balance.py:193-200 | One state is extended by every choice within the target; stopping at the first choice above it loses none. |
| `EmissionAllocation.FirstIsKept` | doom_eap/content/native_enemy_balance.py:199-200 | The state kept for a total gives way only to a strictly nearer one, and totals stay in the order they were first reached. |
| `EmissionAllocation.ExtendStates` | doom_eap/content/native_enemy_balance.py:189-201 | After a source, the states are sound, and no vector of counts beats the state kept for its total. |
| `EmissionAllocation.Knapsack` | doom_eap/content/native_enemy_balance.py:188-205 | The counts emit the greatest total within the target over all vectors of counts; among the vectors of that total the sum of the distances between emissions times quota and target times maximum emissions, written out, is least; and if any of them has exactly proportional emissions, so do the counts. |
| `EmissionAllocation.OptimumIsNearest` | doom_eap/content/native_enemy_balance.py:188-205 | What the cost of the knapsack measures: the written-out sum of the distances from proportional emissions, which is zero exactly for proportional ones. |
| `EmissionAllocation.FloorCounts` | doom_eap/content/native_enemy_balance.py:213 | Every source starts with the floor of its quota. |
| `EmissionAllocation.GiveExtras` | doom_eap/content/native_enemy_balance.py:215-216 | The first sources in order receive one body each and nothing else moves. |
| `EmissionAllocation.LeadersHaveRemainder` | doom_eap/content/native_enemy_balance.py:214-216 | Every source that receives an extra body has a non-zero remainder. |
| `EmissionAllocation.LargerShare` | doom_eap/content/native_enemy_balance.py:213-214 | A larger logical count has a larger quota, by floor or else by remainder. |
| `EmissionAllocation.QuotaHolds` | doom_eap/content/native_enemy_balance.py:213-216 | Floor plus at most one body stays between the floor and the ceiling of the quota. |
| `EmissionAllocation.ExtrasAreFair` | doom_eap/content/native_enemy_balance.py:209-217 | Sum, quota bounds, largest remainders first and order of shares of the finished apportionment. |
| `EmissionAllocation.AllocatePoolCounts` | doom_eap/content/native_enemy_balance.py:209-217 | The counts sum to the target, each lies between floor and ceiling of its exact quota, the bodies above the floors go to the largest remainders, ties by identity, and a source with a larger logical count never has fewer bodies. |
| `EmissionAllocation.FairMeans` | doom_eap/content/native_enemy_balance.py:209-217 | Without floors and remainders: the counts add up to the target, no source is a whole body away from its exact quota, and who got a body too many fell short of more without it than who got too few, ties by identity. |
| `EmissionAllocation.LargestEmitter` | doom_eap/content/native_enemy_balance.py:181-182 | The source to trim is the first of those with bodies that emit the most, in the emissions themselves. |
| `EmissionAllocation.TakeBack` | doom_eap/content/native_enemy_balance.py:181-185 | One body leaves exactly that source, and the running total stays the sum of the emissions. |
| `EmissionAllocation.TrimOvershoot` | doom_eap/content/native_enemy_balance.py:179-185 | The result is reached from the shares by trims that each take one body from the source that emits most while the total is above the target; it is the first that fits, and shares that already fit stay. |
| `EmissionAllocation.AllocateParts` | doom_eap/content/native_enemy_balance.py:177-187 | The sources without single emissions hold their trimmed proportional shares, and the others share what is left of the target by largest remainder. |
| `EmissionAllocation.AllocateWithSingles` | doom_eap/content/native_enemy_balance.py:175-187 | With a single-emission source, the counts emit exactly the target: the other sources hold their trimmed shares and the single-emission ones share the rest fairly. |
| `EmissionAllocation.AllocatedMeans` | doom_eap/content/native_enemy_balance.py:175-187 | In numbers: the written-out emissions are the target; no other source exceeds its rounded-down share of it; and where one has less, the last body taken back did not fit. |
| `EmissionAllocation.TotalIsEmitted` | doom_eap/content/native_enemy_balance.py:205-206 | The total of the chosen vector is the emissions of the counts by source. |
| `EmissionAllocation.AllocateCounts` | doom_eap/content/native_enemy_balance.py:171-206 | All three cases: nothing to allocate, the target hit exactly and shared out with a single-emission source, the optimum otherwise, with the emitted total reported; without a single-emission source the counts themselves are nearest to the proportional shares, and exactly proportional whenever some vector of the same total is. |
| `EmissionAllocation.OptimumHitsAttainable` | doom_eap/content/native_enemy_balance.py:188-205 | An optimum emits the target if and only if some vector of counts does. |
| `EmissionAllocation.AllocationHitsAttainable` | doom_eap/content/native_enemy_balance.py:171-206 | No allocation reports more than the target, and it reports the target if and only if some vector of counts emits it. |
| `EmissionAllocation.SinglesReachAll` | doom_eap/content/native_enemy_balance.py:175-187 | With a single-emission source every target is within reach. |
| `EmissionAllocation.EveryTargetAttainable` | doom_eap/content/native_enemy_balance.py:188-205 | Every target is within reach if and only if some source emits something, and at most once per body. |
| `EmissionAllocation.TargetOutOfReach` | doom_eap/content/native_enemy_balance.py:188-206 | Without a single-emission source the target may be out of reach of every count vector: one source that emits three at a time never emits four. |
| `SubsetSum.OfferCandidate` | doom_eap/content/native_enemy_balance.py:329-334 | After a candidate, every entry is a selection of distinct candidates with its total, each earlier total keeps its selection and has been extended if the sum fits. |
| `SubsetSum.CompletelyExtended` | doom_eap/content/native_enemy_balance.py:329-334 | Every total that some set of the candidates seen so far reaches has an entry. |
| `SubsetSum.Subset` | doom_eap/content/native_enemy_balance.py:327-337 | The chosen positions are distinct candidates whose weights sum to the largest value within the budget that any subset reaches. |
| `SubsetSum.FullestMeans` | doom_eap/content/native_enemy_balance.py:327-337 | Among all lists of different candidates whose written-out weights fit the budget, none adds up to more than the chosen one. |
| `SubsetSum.ExactWhenPossible` | doom_eap/content/native_enemy_balance.py:335-337 | A budget that some subset fills exactly is filled exactly. |
| `BodyDraw.WeightsAddUp` | doom_eap/content/native_enemy_balance.py:403-409 | The weights of a source's bodies sum to its emissions. |
| `BodyDraw.FirstWeightsAre` | doom_eap/content/native_enemy_balance.py:404-408 | The first bodies of a source have the quotient each and one more for as many as the remainder. |
| `BodyDraw.MakeItems` | doom_eap/content/native_enemy_balance.py:398-409 | The items are every body of every source with its share of the emissions; making them fails if and only if a source with bodies has no eligible species. |
| `BodyDraw.AmmoPositions` | doom_eap/content/native_enemy_balance.py:413-414 | The candidates for ammunition are exactly the items that can be ammunition fodder; of any two the one of a supply source stands first, and within either group the one shuffled first. |
| `BodyDraw.ReserveAmmo` | doom_eap/content/native_enemy_balance.py:412-420 | Ammunition is reserved if and only if some set of positions is worth exactly the requirement; then exactly such a set is narrowed to ammunition fodder. |
| `BodyDraw.ReachableMeans` | doom_eap/content/native_enemy_balance.py:412-420 | The requirement is reachable if and only if the weights of some different items with an ammunition species add up to it. |
| `BodyDraw.SelectCategory` | doom_eap/content/native_enemy_balance.py:425-428 | A category takes free items that have one of its species and nothing else changes; they weigh no more than the budget, and no list of different free items that fits it weighs more. |
| `BodyDraw.TurnMeans` | doom_eap/content/native_enemy_balance.py:425-428 | A turn in terms of the items alone: what is taken, what stays, and that no other choice within the budget weighs more. |
| `BodyDraw.TurnsOf` | doom_eap/content/native_enemy_balance.py:423-424 | Every category of the budget has one turn: special species first, then other names, then the superheavy, the heavy, the stationary and the fodder, and equal ones by name. |
| `Foundations.TextLeqMeans` | doom_eap/content/native_enemy_balance.py:423-424 | Names compare by the first character in which they differ, a beginning before the whole. |
| `BodyDraw.SelectAll` | doom_eap/content/native_enemy_balance.py:423-428 | The categories take their turns one after another, each on what the earlier ones left free. |
| `BodyDraw.SelectItems` | doom_eap/content/native_enemy_balance.py:412-428 | Ammunition first, paid from the fodder budget, then every turn. |
| `BodyDraw.BudgetLeftMeans` | doom_eap/content/native_enemy_balance.py:421-422 | Only the fodder entry of the budget pays for the ammunition. |
| `BodyDraw.Pick` | doom_eap/content/native_enemy_balance.py:440-443 | The drawn species is eligible and of the selected category, of fodder if nothing was selected, and otherwise a cheapest one, the first of those by name. |
| `BodyDraw.DrawAll` | doom_eap/content/native_enemy_balance.py:439-474 | Every body of every source is drawn once, for its own item, and the running counts are those of the rosters. |
| `BodyDraw.AddCounts` | doom_eap/content/native_enemy_balance.py:470-471 | Adding one body keeps both running counts equal to a recount of the rosters. |
| `BodyDraw.TotalAddedUp` | doom_eap/content/native_enemy_balance.py:470-471 | Every entry of a count is the sum, body by body, of the emissions of the drawn species of its category, or of what those cost. |
| `BodyDraw.FullRosters` | doom_eap/content/native_enemy_balance.py:403-409 | Complete rosters weigh in all as much as the sources emit. |
| `BodyDraw.BodyCosts` | doom_eap/content/native_enemy_balance.py:285-295 | The separate recount by category is the sum over the rosters, body by body. |
| `BodyDraw.DrawBodies` | doom_eap/content/native_enemy_balance.py:393-475 | The draw fails exactly for an unplaceable source or unreachable ammunition; otherwise each source gets exactly its count of compatible bodies, drawn as the turns selected them, and the counts by category agree with a recount. |
| `NativeRecipes.RoundRobinIsRemainder` | doom_eap/content/native_enemy_plan.py:862-864 | The body that round-robin emission reaches last is the one at the remainder. |
| `NativeRecipes.BookedIs` | doom_eap/content/native_enemy_plan.py:859 | Booking full credits and one final credit adds up in closed form. |
| `NativeRecipes.QuotaBalances` | doom_eap/content/native_enemy_plan.py:856-859 | Emissions and final credit book exactly the original maximum times the physical count, and the final credit lies within one logical count. |
| `NativeRecipes.Freeze` | doom_eap/content/native_enemy_plan.py:842-874 | A recipe is refused if and only if a number outgrows 31 bits; otherwise the whole credits and the final one add up to the original maximum times the bodies, the final one is positive and at most a logical count, the body marked is the one at the remainder, if and only if the last credit is partial, and the metadata check accepts it. |
| `NativeRecipes.WholeUnits` | doom_eap/content/native_enemy_plan.py:136-137 | A balanced recipe has no fractional original units. |
| `NativeRecipes.MetadataMeans` | doom_eap/content/native_enemy_plan.py:131-137 | The quantity check accepts exactly the recipes in 31 bits whose final credit is positive and at most a logical count, or zero without emissions, and whose credits divide evenly among the bodies. |
| `NativeRecipes.FreezeAll` | doom_eap/content/native_enemy_plan.py:835-874 | All recipes of an encounter, source by source. |
| `NativeRecipes.DrawConserves` | doom_eap/content/native_enemy_balance.py:285-295 | A correct draw weighs exactly what the allocation emits, and its rosters recount to the same totals. |
| `NativeRecipes.Account` | doom_eap/content/native_enemy_plan.py:853-859 | Draw, recount and recipes account for the same emissions; it fails if and only if a number outgrows a recipe. |
| `NativeRecipes.PlanEncounter` | doom_eap/content/native_enemy_balance.py:171-187 | End to end, planning succeeds if and only if every source with bodies has an eligible species, the required ammunition can be set aside from the items made, and every number fits a recipe; then draw, recount and recipes all account for the emissions of the allocation, which is exactly the target with a single-emission source and the optimum otherwise. |
| `NativeRecipes.PlannedEncounterEmits` | doom_eap/content/native_enemy_balance.py:171-206 | A planned encounter emits the target if and only if some vector of counts does, and always if some source emits something and at most once per body; the emissions of its recipes, added up, are the reported total, and without a single-emission source its counts are nearest to the proportional shares. |
| `BudgetMoves.ScaledIsNearest` | doom_eap/content/native_enemy_balance.py:315 | Scaling rounds to the nearest count, ties to even. |
| `BudgetMoves.ScaleThreats` | doom_eap/content/native_enemy_balance.py:314-315 | Exactly the threats are scaled. |
| `BudgetMoves.CutThreats` | doom_eap/content/native_enemy_balance.py:317-321 | Threats are cut from the back of the order: one loses bodies only if every later one has lost all, and what is left is exactly the total. |
| `BudgetMoves.ModifiedBudget` | doom_eap/content/native_enemy_balance.py:311-324 | For any non-negative factor the scaled budget sums to the total and has no negative entry; threats are kept whole when they fit, stationary bodies come before fodder. |
| `BudgetMoves.CutRanks` | doom_eap/content/native_enemy_balance.py:317-321 | A threat loses bodies only if every threat after it, special species first and then by name, has none left. |
| `BudgetMoves.RequireFodder` | doom_eap/content/native_enemy_balance.py:677-686 | The transfer fails if and only if fodder and all threats together fall short; otherwise the sum is kept, fodder ends at exactly the larger of what it had and the requirement, surplus above the native share goes first, and each of the two passes empties the threats in name order. |
| `BudgetMoves.TurnsByName` | doom_eap/content/native_enemy_balance.py:678-686 | A threat gives only after every threat before it by name is down to its native share in the first pass, or empty in the second. |
| `BudgetMoves.TakePass` | doom_eap/content/native_enemy_balance.py:679-684 | One pass takes what it may: a threat gives only after every earlier one in the order has given all it may, and a shortfall is left only when nothing more may be taken. |
| `BudgetMoves.Favourite` | doom_eap/content/native_enemy_balance.py:265 | The receiving source is a supply source if there is one, then of largest logical count, then first by identity. |
| `BudgetMoves.Donate` | doom_eap/content/native_enemy_balance.py:266-273 | Donors give exactly what is missing, each only after every earlier one in the order has given everything. |
| `BudgetMoves.ReserveAmmoCounts` | doom_eap/content/native_enemy_balance.py:255-274 | It fails if and only if ammunition is required and no source is compatible or there are not enough bodies; otherwise no body is lost, the compatible sources hold the larger of what they had and the requirement, the gain goes to the favourite, and the incompatible sources give the largest first. |
| `BudgetMoves.ReservedByRank` | doom_eap/content/native_enemy_balance.py:264-273 | A source gives only after every incompatible one with more bodies, or as many and an earlier name, is empty; what it gives arrives at the supply source, the largest, the first by name. |
| `RenewablePool.FeedingCount` | doom_eap/content/native_enemy_balance.py:414 | Counting the items that can be ammunition one by one or source by source gives the same number. |
| `RenewablePool.ReachableWhenFed` | doom_eap/content/native_enemy_balance.py:403-418 | In a renewable draw, where every body has weight one, the ammunition can be set aside if and only if the sources that can be ammunition fodder have enough bodies. |
| `RenewablePool.NobodyFeeds` | doom_eap/content/native_enemy_balance.py:258-262 | No source can feed if and only if no species that any source may spawn is ammunition. |
| `RenewablePool.DrawPool` | doom_eap/content/native_enemy_balance.py:393-475 | With enough bodies at such sources, the draw raises if and only if a source with bodies has no eligible species. |
| `RenewablePool.PlanPool` | doom_eap/content/native_enemy_balance.py:668-696 | Budget, counts and draw of the renewable pool together: it raises for the budget if and only if fodder and threats fall short, for the counts if and only if no source can feed or the pool is too small, and otherwise only for a source without species, never for want of ammunition; the drawn bodies are exactly the target, with the required ammunition among their fodder. |
| `ValidationCache.Validator.constructor` | doom_eap/content/native_enemy_plan.py:964-974 | The cache starts empty and valid over any keys that earlier runs of the same compiler recorded. |
| `ValidationCache.Validator.Validate` | doom_eap/content/native_enemy_plan.py:983-1037 | In terms of the rebuild alone: a full plan is accepted, and returned, if and only if its seed is not empty and the rebuild is that very plan; a descriptor if and only if its seed is not empty, its fingerprint is sixty-four lower-case hexadecimal digits and the rebuilt plan has its revision, seed, campaign and fingerprint, and that plan is returned; each refusal has its cause. The cache stays valid, holds at most eight entries, and its new order is stated for hits and misses. |
| `ValidationCache.Validator.Verify` | doom_eap/content/native_enemy_plan.py:1004-1028 | A recorded key is trusted only for full plans and only when it tells the truth; otherwise the plan is rebuilt and compared. |
| `ValidationCache.RebuiltAnswers` | doom_eap/content/native_enemy_plan.py:983-1012 | What the comparison with the rebuild accepts and returns, for full plans and for descriptors, and what each refusal means. |
| `ValidationCache.Validator.DropExpanded` | doom_eap/content/native_enemy_plan.py:1029-1032 | Exactly the expanded plans leave the cache; every other entry stays, in its order. |
| `ValidationCache.UnexpandedOrder` | doom_eap/content/native_enemy_plan.py:1030-1032 | The entries that stay keep their order. |
| `ValidationCache.Validator.Store` | doom_eap/content/native_enemy_plan.py:1033-1035 | Storing a ninth entry evicts exactly the oldest one. |
| `ValidationCache.Validator.MoveToEnd` | doom_eap/content/native_enemy_plan.py:1036 | The key used becomes the most recent and the others keep their order. |
| `ValidationCache.Validator.ValidateAll` | doom_eap/content/native_enemy_plan.py:983-1037 | Over every sequence of calls each result is that of an uncached rebuild, with the same exact conditions of acceptance. |
| `PopulationCaps.AmmoSlots` | doom_eap/content/native_enemy_plan.py:486-495 | The ammunition slots are the supply positions, all of them, and then a first part of the shuffled compatible ones, which ends as soon as the quota is reached or when they run out. |
| `PopulationCaps.HeavySlots` | doom_eap/content/native_enemy_plan.py:521-524 | The heavy slots are as many of the candidate positions as the budget allows. |
| `PopulationCaps.RollRole` | doom_eap/content/native_enemy_plan.py:553-559 | The role is the one whose stretch of the weights holds the roll, and has a positive weight. |
| `PopulationCaps.ThousandthsMeans` | doom_eap/content/native_enemy_plan.py:553-554 | A role weight is the nearest number of thousandths, ties to even, and none for half a thousandth or less. |
| `PopulationCaps.DrawOne` | doom_eap/content/native_enemy_plan.py:525-561 | A species is drawn if and only if one passes the filters and, from revision 11, its role has a weight; the drawn one does, and each refusal means that none passes them or that the role weights of all that do are zero. |
| `PopulationCaps.HeaviesAreSlots` | doom_eap/content/native_enemy_plan.py:534-535 | If heavies stand exactly on the heavy slots, there are exactly as many as slots. |
| `PopulationCaps.CapsStep` | doom_eap/content/native_enemy_plan.py:525-569 | Any species the filters admit keeps every cap. |
| `PopulationCaps.AdmittedExactly` | doom_eap/content/native_enemy_plan.py:525-535 | The filters admit a species if and only if all caps are still kept with it and, away from ammunition slots, its role has a share. |
| `PopulationCaps.CapsMean` | doom_eap/content/native_enemy_plan.py:527-535 | The caps position by position: superheavies counted, supports never twice, never both without mixing. |
| `PopulationCaps.DrawPhase` | doom_eap/content/native_enemy_plan.py:480-570 | For every roster and every draw, position by position: superheavies within the cap and only in a roster of four, at most one support and only in a large phase, never both without mixing, ammunition slots on chainsaw fodder, and from revision 11 heavies at exactly the reserved slots, which are candidate positions, as many as the budget allows; it is refused only at a position where no species can follow the bodies drawn before it. |
| `ProfileMemo.MemoDraw` | doom_eap/content/enemy_plan.py:152-158 | The memoised draw is the direct draw. |
| `ProfileMemo.SampleMemo` | doom_eap/content/enemy_plan.py:148-177 | Sampling with the shared memo gives the attributes of direct sampling. |
| `ProfileMemo.SampleMeans` | doom_eap/content/enemy_plan.py:148-177 | Every attribute of a sample from settings and draw: drawn between the two nearest interpolated bounds or equal to them, full speed without the capability, and the size drawn, or half, double or full by the roll. |
| `ProfileMemo.EdgeEnds` | doom_eap/content/enemy_plan.py:162-166 | The first and the last stage have the early and the late bound. |
| `ProfileMemo.VariationShares` | doom_eap/content/enemy_plan.py:173-176 | Of the two hundred rolls, as many as the chance in percent give half size, as many double size, and the rest full size. |
| `ProfileMemo.SameProfileSamplesAlike` | doom_eap/content/native_enemy_plan.py:340-346 | Species with one profile have the same attributes at every position. |
| `ProfileMemo.Representatives` | doom_eap/content/native_enemy_plan.py:338-346 | Every candidate has the first species of its profile as representative. |
| `ProfileMemo.ScaledPairIsCost` | doom_eap/content/native_enemy_plan.py:347-375 | The scaled numerator and denominator have exactly the value of the species' own combat cost, the twelvefold species included. |
| `ProfileMemo.CombatCostMeans` | doom_eap/content/enemy_plan.py:35-48 | The combat cost is the base cost, twelvefold for the two support species from their revisions, times health not below a quarter, half of one and of the damage, three quarters and a quarter of the speed, and the same of the size or of its inverse below full size. |
| `ProfileMemo.SampleGroups` | doom_eap/content/native_enemy_plan.py:367-369 | One sample per profile, each equal to direct sampling of its representative. |
| `ProfileMemo.PositionCosts` | doom_eap/content/native_enemy_plan.py:364-375 | Every candidate has the attributes of sampling it alone, each from 1 to 10000, and exactly the cost that they make it; the position raises if and only if some candidate alone would. |
| `Rationals.FractionValue` | doom_eap/content/enemy_plan.py:47-48 | A reduced fraction has the value of the unreduced one. |
| `Rationals.CrossCompare` | doom_eap/content/native_enemy_plan.py:377-378 | Comparing cross products compares the values. |
| `Rationals.GcdGreatest` | doom_eap/content/enemy_plan.py:67 | Every common divisor divides the greatest one. |
| `Rationals.LcmMultiple` | doom_eap/content/enemy_plan.py:65 | The common multiple is a multiple of both. |
| `SpeciesShares.Select` | doom_eap/content/enemy_plan.py:141-144 | The subtraction walk stops at the entry whose stretch of the weights holds the draw, never at a zero weight. |
| `SpeciesShares.FallsIntoOne` | doom_eap/content/enemy_plan.py:141-144 | A draw falls into the stretch of one entry only. |
| `SpeciesShares.ExactShare` | doom_eap/content/enemy_plan.py:140-144 | Over all draws below the total, each entry is selected exactly as often as its weight says. |
| `SpeciesShares.SampleSpecies` | doom_eap/content/enemy_plan.py:135-144 | It raises if and only if every weight is zero; otherwise the species drawn has positive weight and its stretch holds the draw. |
| `SpeciesShares.PositiveOrder` | doom_eap/content/enemy_plan.py:136-137 | The species of positive weight keep their order. |
| `SpeciesShares.Integers` | doom_eap/content/enemy_plan.py:65-68 | For fractions that are not all zero, the integers have no common divisor and exactly the proportions of the fractions. |
| `SpeciesShares.TiltedPositive` | doom_eap/content/enemy_plan.py:61-64 | The tilted weight is the weight times or over the fourth power of its bias, and positive if and only if the weight is. |
| `SpeciesShares.DensityTiltsByCost` | doom_eap/content/enemy_plan.py:62-64 | Below full density a costlier species never loses share against a cheaper one; above it, it never gains. |
| `SpeciesShares.FractionsTilted` | doom_eap/content/enemy_plan.py:62-64 | Each tilted weight, written out: times, or above full density over, the fourth power of one plus the tilt by its share of the mean cost. |
| `SpeciesShares.MeanIsMean` | doom_eap/content/enemy_plan.py:60 | The reference times the sum of the weights is the sum of the weighed costs. |
| `SpeciesShares.DensityWeights` | doom_eap/content/enemy_plan.py:52-68 | At full density the weights are kept; otherwise it raises if and only if all weights are zero, and else they become coprime integers exactly proportional to the weights times or over the fourth power of their bias, written out against the weighted mean cost and the distance from full density. |
| `ResourceMask.ParseEncoded` | doom_eap/launcher/campaign_resources.py:141-165 | Encoding any tables and parsing the bytes gives the tables back. |
| `ResourceMask.EncodeParsed` | doom_eap/launcher/campaign_resources.py:143-165 | Parsing any bytes and encoding the tables gives the bytes back. |
| `ResourceMask.U32Means` | doom_eap/launcher/campaign_resources.py:72-73 | A word is read with its least byte first. |
| `ResourceMask.U64Means` | doom_eap/launcher/campaign_resources.py:76-77 | A double word is read with its low word first. |
| `ResourceMask.TableAt` | doom_eap/launcher/campaign_resources.py:53-58 | What stands at the offset of a table is its identity, its word count and its bits, and the next table follows. |
| `ResourceMask.TablesFollow` | doom_eap/launcher/campaign_resources.py:141-167 | The first table stands at byte 8, and each next one after an identity, a word count and the words of the one before. |
| `ResourceMask.OrBitSets` | doom_eap/launcher/campaign_resources.py:158-159 | Setting one bit sets that bit and no other. |
| `ResourceMask.BitValue` | doom_eap/launcher/campaign_resources.py:157-159 | Bit k of a byte has the value 1, 2, 4 up to 128, and setting it where it is clear adds that value. |
| `ResourceMask.EnableRecords` | doom_eap/launcher/campaign_resources.py:151-161 | In the values of the bytes: bit v mod 8 of byte v / 8 is set if and only if it was set or v was requested, and enabling one disabled record adds exactly its value to its byte; the reports of words added and of bits changed are exact. |
| `ResourceMask.EnablesInBytes` | doom_eap/launcher/campaign_resources.py:155-159 | By the values of the bytes: exactly the requested records are enabled in addition, and one disabled record adds its value to its byte and leaves every other byte. |
| `ResourceMask.RewriteTable` | doom_eap/launcher/campaign_resources.py:144-165 | One table is copied or served its request, byte for byte, unless a requested record lies beyond what a 32-bit word count can hold. |
| `ResourceMask.RewriteMask` | doom_eap/launcher/campaign_resources.py:141-166 | The rewritten mask parses to the rewritten tables, with the head kept and every old offset mapped to the table's new one; it is refused if and only if some table is asked for a record beyond a 32-bit word count. |
| `ResourceMask.PlaceMask` | doom_eap/launcher/campaign_resources.py:168-175 | The index row names the place and length of the new payload; every byte outside the payload and the row is as it was; an unchanged mask changes nothing; and the container holds the new payload if and only if the row, written last, does not fall on it with other bytes. |
| `ResourceMask.PlacedRelocated` | doom_eap/launcher/campaign_resources.py:168-177 | Where the payload goes, read from the bytes of the row: in place for the same length or at the end of the container, else at the next multiple of sixteen with zeros before it; the three fields of the row, the payload bytes and the length of the container. |
| `ResourceMask.RowUndoes` | doom_eap/launcher/campaign_resources.py:168-175 | For every container: changes of the mask that all fall under its index row are undone when the row is written. |
| `ResourceMask.RowOverMask` | doom_eap/launcher/campaign_resources.py:168-175 | One such container: a row among the bits of its own mask, where enabling a record has no effect. |
| `ResourceMask.WalkTables` | doom_eap/launcher/campaign_resources.py:53-60 | The walk ends at the end of the mask if and only if the mask parses, and collects exactly the table offsets. |
| `ResourceMask.TableOffsets` | doom_eap/launcher/campaign_resources.py:51-60 | It accepts exactly the masks that parse. |
| `ResourceActivation.MappingLines` | doom_eap/launcher/campaign_resources.py:50-69 | Lines are accepted if and only if the mask parses and every line points at a table or is a leftover enemy bank; exactly the lines at tables are kept. |
| `ResourceActivation.StaleMeans` | doom_eap/launcher/campaign_resources.py:63-66 | A leftover line is the fixed directory, either slash, sixty-four hexadecimal digits and the suffix. |
| `ResourceActivation.Select` | doom_eap/launcher/campaign_resources.py:129-135 | Names are accepted if and only if they stay distinct after normalizing. |
| `ResourceActivation.NormalizedMeans` | doom_eap/launcher/campaign_resources.py:131 | Backslashes become slashes and one leading dot and slash is dropped. |
| `ResourceActivation.Choose` | doom_eap/launcher/campaign_resources.py:138-140 | Targets are accepted if and only if no two of them share a table. |
| `ResourceActivation.Plan` | doom_eap/launcher/campaign_resources.py:127-140 | The selection succeeds for exactly the plannable mappings. |
| `ResourceActivation.Renumber` | doom_eap/launcher/campaign_resources.py:177-179 | Every kept line points at its own table's new offset; nothing moves if no table did. |
| `ResourceActivation.MeaningOfRewrite` | doom_eap/launcher/campaign_resources.py:143-165 | Requested tables gain exactly the requested records, all others are identical. |
| `ResourceActivation.ActivationSeen` | doom_eap/launcher/campaign_resources.py:141-184 | Through every line the table it points at has, bit by bit in the container bytes, the old records and the requested ones and no other. |
| `ResourceActivation.Rewrite` | doom_eap/launcher/campaign_resources.py:141-179 | Mask, mapping and container of one activation together; refused if and only if a record outgrows a 32-bit word count or the place or length of the mask outgrows 64 bits. |
| `ResourceActivation.Prepare` | doom_eap/launcher/campaign_resources.py:120-184 | It succeeds if and only if the input is acceptable and the result fits its 32- and 64-bit fields; the mask then parses to the same tables with exactly the requested bits added, unless the index row falls on it, the lines follow their tables, and the container changes only in payload and row. Read from the bytes of container, mask and row alone, every line of the new mapping sees exactly the records its old line saw and the requested ones. |
| `ResourceActivation.NothingLeftToEnable` | doom_eap/launcher/campaign_resources.py:157-161 | After an activation the same targets have nothing left to enable. |
| `ResourceActivation.StillAcceptable` | doom_eap/launcher/campaign_resources.py:124-140 | The output of an activation is acceptable input for the same targets. |
| `ResourceActivation.ActivateTwice` | doom_eap/launcher/campaign_resources.py:120-184 | After a successful activation a second one with the same targets succeeds and changes neither container nor mapping, unless the index row falls on the mask. |
| `Publication.Directory.PublishFile` | doom_eap/launcher/campaign_resources.py:207 | A publication replaces one file, whatever it holds by then, or nothing. |
| `Publication.Directory.CheckAndReplace` | doom_eap/launcher/campaign_resources.py:203-207 | Other programs may write between the check and the replacement; in a quiet folder the file is replaced only if it held the expected bytes, and undisturbed exactly then. |
| `Publication.Directory.ReadOriginals` | doom_eap/launcher/campaign_resources.py:190-196 | In a quiet folder, publishing starts if and only if the names and digests are the reported ones. |
| `Publication.MatchesMeans` | doom_eap/launcher/campaign_resources.py:190-196 | The folder is as reported if and only if every updated file is there with its digest and no other digest is reported. |
| `Publication.Directory.PublishAll` | doom_eap/launcher/campaign_resources.py:199-208 | In a quiet folder it holds exactly the updates published so far; in any folder each replacement follows a check of the file it replaces; undisturbed, all are published. |
| `Publication.Directory.RollBack` | doom_eap/launcher/campaign_resources.py:211-217 | In a quiet folder a completed rollback restores it; in any folder each replacement follows a check of the file it replaces; undisturbed, the rollback completes. |
| `Publication.Directory.ReadBack` | doom_eap/launcher/campaign_resources.py:209-210 | A readback that agrees means every file holds its update. |
| `Publication.Directory.Publish` | doom_eap/launcher/campaign_resources.py:187-220 | Undisturbed, it publishes if and only if every updated file has its reported digest and no other is reported. In a quiet folder a return means every file holds its update and every other file is as it was, and a refusal or a completed rollback means every file is as it was. In any folder every replacement follows a check that the file held what may be replaced. |
| `Publication.JustifiedUnlessTouched` | doom_eap/launcher/campaign_resources.py:203-217 | A replacement overwrites an original by its update, or an update by its original, if and only if no other program changed the file between its check and the replacement. |
| `Publication.ForeignBytesLost` | doom_eap/launcher/campaign_resources.py:203-207 | One interleaving where it does not: the file is checked, another program writes it, and the publication overwrites those bytes. |
| `Publication.AfterAt` | doom_eap/launcher/campaign_resources.py:199-208 | What a file holds after any number of the updates. |
| `Publication.AfterAll` | doom_eap/launcher/campaign_resources.py:199-208 | After all updates every updated file holds its payload and every other file is as it was. |
| `KillAlternatives.CheckGroup` | doom_eap/content/killsanity_plan.py:22-35 | A group is refused if and only if it breaks one of the listed conditions. |
| `KillAlternatives.AcceptsMeans` | doom_eap/content/killsanity_plan.py:22-35 | By branches: a group is accepted if and only if its name is new, it has at least two branches, none empty, no source twice in or across them, and every source is a row of one access. |
| `KillAlternatives.LeastCount` | doom_eap/content/killsanity_plan.py:36 | The count is the least of the branches' kills, each added up source by source. |
| `KillAlternatives.CollapseGroup` | doom_eap/content/killsanity_plan.py:36-39 | Exactly the members leave and one row with the least branch total arrives. |
| `KillAlternatives.UnfoldWeight` | doom_eap/content/killsanity_plan.py:36-39 | Putting any branch back weighs at least as much as the group row, and the least branch exactly as much. |
| `KillAlternatives.EveryWayHasAtLeast` | doom_eap/content/killsanity_plan.py:13-40 | The collapsed total is at most the total of every choice of branches. |
| `KillAlternatives.SomeWayHasExactly` | doom_eap/content/killsanity_plan.py:13-40 | Some choice of branches has exactly the collapsed total. |
| `KillAlternatives.CollapseIsMinimum` | doom_eap/content/killsanity_plan.py:13-40 | The collapsed total is the minimum over all choices, also when branches name earlier groups. |
| `KillAlternatives.OutsidersKept` | doom_eap/content/killsanity_plan.py:37-39 | A row that is in no branch survives unchanged. |
| `KillAlternatives.OnlyOutsidersAndGroups` | doom_eap/content/killsanity_plan.py:37-39 | Nothing else is left but the group rows. |
| `KillAlternatives.CollapseSourceAlternatives` | doom_eap/content/killsanity_plan.py:13-40 | Accepted groups had at least one row, each under its own identity, and collapse to the minimum over all choices of branches; a refusal names rows that are out of order or the first group that breaks a condition. |
| `LogRetention.LineEnd` | doom_eap/launcher/launcher_doctor.py:422 | A read of one line ends after the first newline, at the read limit or at the end of the file. |
| `LogRetention.LinesAreTheFile` | doom_eap/launcher/launcher_doctor.py:421-424 | Reading line by line loses no byte, and no line is longer than one read. |
| `LogRetention.Push` | doom_eap/launcher/launcher_doctor.py:425-439 | A queue holds the longest suffix of its lines that fits its budget. |
| `LogRetention.ClassMeans` | doom_eap/launcher/launcher_doctor.py:425-434 | A line is a death line or an event if and only if one of the listed texts stands in it. |
| `LogRetention.LongestIsMaximal` | doom_eap/launcher/launcher_doctor.py:438-439 | No longer suffix fits. |
| `LogRetention.RetainEvents` | doom_eap/launcher/launcher_doctor.py:414-439 | Each queue ends as the longest fitting suffix of the lines of its class. |
| `LogRetention.OfClassOrder` | doom_eap/launcher/launcher_doctor.py:425-439 | The lines of a class stand in the order of the file. |
| `LogRetention.ReadSupportLog` | doom_eap/launcher/launcher_doctor.py:396-442 | An empty log gives nothing, one of at most 1048576 bytes is whole, a larger one is its first 131072 bytes, the events (up to 655104 bytes), the deaths (up to 131072) and its last 131072 bytes, each at its place under its title, never above the maximum. |
| `LogRetention.NewestEventsSurvive` | doom_eap/launcher/launcher_doctor.py:416-439 | The newest event and the newest death line are in every excerpt. |
| `ConsoleExcerpt.FindLastEvent` | doom_eap/launcher/launcher_doctor.py:470-475 | The offset found is that of the last line that matches, if any does. |
| `ConsoleExcerpt.MergeSpans` | doom_eap/launcher/launcher_doctor.py:481-486 | Merged spans are ordered with gaps between them, contain each given span whole, add no position and are no wider in all. |
| `ConsoleExcerpt.MergesAnyOrder` | doom_eap/launcher/launcher_doctor.py:480-486 | The merge does not depend on the order the spans are listed in. |
| `ConsoleExcerpt.WindowHoldsEvent` | doom_eap/launcher/launcher_doctor.py:476-480 | The middle window contains the whole last event line. |
| `ConsoleExcerpt.WindowNumbers` | doom_eap/launcher/launcher_doctor.py:476-480 | The three windows in numbers, for every size and every place of the event. |
| `ConsoleExcerpt.PieceSurvives` | doom_eap/launcher/launcher_doctor.py:488-495 | A trimmed span is a range of the file, and it holds a piece if and only if the span is uncut or has a newline before it, and is uncut or has a newline at its end or after it. |
| `ConsoleExcerpt.MergedWindows` | doom_eap/launcher/launcher_doctor.py:479-486 | The three windows merge to parts within the file. |
| `ConsoleExcerpt.ExcerptFits` | doom_eap/launcher/launcher_doctor.py:476-497 | The joined excerpt fits the limit and never holds more than the file. |
| `ConsoleExcerpt.JoinMeans` | doom_eap/launcher/launcher_doctor.py:497 | Up to three chunks in order, with the separator between any two. |
| `ConsoleExcerpt.EncounterConsole` | doom_eap/launcher/launcher_doctor.py:459-502 | A small console is whole; a large one is the trimmed merged windows around its last event, joined within the limit. |
| `ConsoleExcerpt.LastEventIsKept` | doom_eap/launcher/launcher_doctor.py:477-495 | The last encounter event is in the excerpt whenever it is a whole line. |
| `ConsoleExcerpt.EndlessLineIsLost` | doom_eap/launcher/launcher_doctor.py:487-495 | A large console without line breaks is trimmed to nothing, whatever events it holds. |
| `RegionTopology.Reachable` | doom_eap/content/content_catalog.py:443-448 | The loop ends, with exactly the regions that have a path from the menu. |
| `RegionTopology.ClosedHoldsWalks` | doom_eap/content/content_catalog.py:445-448 | A set closed under connections holds the end of every walk. |
| `RegionTopology.RepeatsShortenPairs` | doom_eap/content/content_catalog.py:438-440 | Counting distinct pairs finds every repeated connection. |
| `RegionTopology.ValidateTopology` | doom_eap/content/content_catalog.py:429-450 | The topology is accepted if and only if it is declared, assigned, legal, free of repeats and every region has a path from the menu. |

## Left out

- CoreInstall.Installation.Restore: damaged or unreadable JSON records are absent records here; the folder identity is a string rather than a resolved path.
- CoreInstall.Installation.ReplacePair: no journal is active when it starts, since both callers recover first (`doom_eap/launcher/launcher_platform.py:1035`, `doom_eap/launcher/launcher_core_install.py:130`); the directory creation calls are not separate crash points, since nothing reads an empty directory; the write lock of the game folder is held by the caller and is not modelled.
- Workers.StepKeepsInv: an operation that submits work or retires the lane while inside its own publication, the error sink, and the bounded join at the end of closing are not steps.
- EmissionAllocation.Knapsack: which of several equally near vectors is returned is not stated.
- SubsetSum.Subset: which of several fullest choices is returned is not stated.
- BodyDraw.Pick: the draw weights, the cost fitting, the supply preference and the zombie limit only narrow the permitted species, so any permitted species stands for them; drawn attributes are left out.
- BodyDraw.DrawBodies: the compatibility filter of a source is a parameter, any list of species; combat costs are natural numbers, being multiples of a common unit.
- NativeRecipes.PlanEncounter: the reference encounter, the category budget and the required ammunition are parameters; passthrough and maintenance sources are not part of an encounter here.
- NativeRecipes.Freeze: runtime-only recipes, which keep only the first bodies, naming, masks and bindings are left out.
- BudgetMoves.ModifiedBudget: the factor is a real number; the two special counters are names like any other.
- RenewablePool.PlanPool: the required ammunition, the scaled budget and the native share are parameters; the species a source may spawn are one list for the reservation and the draw, since the two lists of the program differ only in species that are not ammunition fodder (`doom_eap/content/native_enemy_balance.py:381-390`).
- PopulationCaps.DrawPhase: the group shares, the heavy budget and the filters by progress and opening are parameters; draw weights within a role are any choice.
- ProfileMemo.PositionCosts: the later choice between candidates by pressure is left out.
- SpeciesShares.DensityWeights: the combat costs are parameters, any positive fractions.
- SpeciesShares.SampleSpecies: the entries arrive sorted and distinct.
- ValidationCache.Validator.Validate: the cached key file is read whole or not at all; the lock makes calls one at a time.
- ResourceActivation.Prepare: the text form of offsets and the archive index that locates the mask are parsed values here; the error that the program raises while storing a number too large for its field is a fault of its own.
- ResourceActivation.ActivateTwice: nothing is promised where the index row falls on the mask, since the first activation may then have no effect.
- Publication.Directory.Publish: temporary files are not part of the directory; a retried replacement is one replacement, with the waiting before it.
- KillAlternatives.CollapseSourceAlternatives: the shape of the rows (types, duplicate keys in a list) is given by the types; access requirements are one value compared as a whole.
- LogRetention.ReadSupportLog: the payload is the bytes before decoding and sanitizing, which shorten or mask text afterwards; a file that grows while it is read is not modelled.
- ConsoleExcerpt.EncounterConsole: the event pattern is a parameter, any predicate on a line; decoding, sanitizing and the report fields other than the retained size are left out.
- RegionTopology.ValidateTopology: the mission and terminal rules that follow in the same function are left out; rows have four fields by type.
- Launcher orchestration, process probes, HTTP, user interface, archive assembly, JSON schemas and data tables carry no algorithm of their own.
- The recipe builder's branches for revisions 1 to 9 are left out except where a member takes the revision as a parameter.
