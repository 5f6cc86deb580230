# Triagearr: a verified model

Triagearr scores the torrents of a library, plans which ones to delete when a disk fills, and
deletes them irreversibly through the *arr applications and qBittorrent. This project models the
decisions around those deletions and proves what they keep, for every input, every interleaving
and every pattern of failures:

- **RunLock** - the single-run guard: a capacity-1 channel per process over one OS file lock, as
  interleaved atomic steps of any number of goroutines and processes, with crashes. The `Lock`
  class runs the same steps in place.
- **RunStore, RunClients, LiveRun, PlanFreshness** - the table of runs, the HTTP handlers that
  start, execute and stop a live run as clients of the lock, one run followed from the request to
  the freed slot, and how fresh a plan is when it is executed.
- **Reaper, ReaperSafety, ReaperFate, ReaperAudit, ReaperRun, ReaperBytes** - the destructive pipeline.
  Everything it does is one log of calls and answers; an arbitrary `Env` fixes the answers, so each
  theorem covers every failure, stop request and outside change to the filesystem. The class
  `Actor` writes the log; the specification functions say which log, and ReaperFate says which end
  every action has, from the world's answers alone.
- **Planner, PlanMeaning, PlanToRun** - the greedy plan, what it elects spelled out on the store's
  answers, and plan and run together.
- **Policy, Scoring, WeightBounds, VetoDominance, BoostOrder** - tracker policies and gates, the
  eight score factors, and the exact conditions on the weights under which the hit-and-run veto
  and the user's boost win.
- **SnapshotQueries, SnapshotMeaning, ScorePass, VerdictMeaning** - the agreement of scoring one
  torrent with scoring the library, and what statistics and verdicts say. A query answer is any
  list SQL allows.
- **ImportSync, ImportRecords, ImportOutrun** - the incremental import of a paged history that may
  grow while it is read, slowly or faster than it is paged through; which records are of use.
- **TrackerTable, Downsample, DailyMeaning, Limiter** - tables and indexes that must agree with a
  history of polls, snapshots or requests.
- **SnapshotStore, Timestamps** - the snapshot tables as downsampling leaves them and scoring reads
  them, and the text order of their timestamps.
- **ScorerLoop, TrackerLoop** - the signal-driven loops, as steps of pollers and consumer
  (**Machine** holds what runs of a machine share).
- **DiskWatcher, Notifications** - pressure triggers, throttled alerts and health events.
- **Scrub, ScrubMeaning** - removing secrets from log strings.

Each imperative operation is a method whose contract equates its result, or the new state, with a
specification; the theorems are about the specifications. ReaperFate, ImportRecords, the modules
named after a meaning and the lemmas named ByMeaning say what the specifications compute in terms
of the inputs alone. Loops over Go maps and over grouped rows visit an arbitrary order.
Floating-point numbers are reals, times are integers (nanoseconds), timestamps compared as text are
ranks in an arbitrary total order (Timestamps relates it to the text), and the base-10 logarithm is
an arbitrary function with, where a bound must be exact, its value at one and its growth from there.

Where the code and its comments or pages disagree, the model follows the code:

- The planner has no score floor, although web/src/routes/index.tsx:175-178 and
  docs/SCORING.md:262-272 say that negative scores are filtered and docs/SCORING.md:179 that a
  torrent under the hit-and-run veto is never deleted. `Planner.NoScoreFloor` and
  `VetoDominance.VetoedElectedExactly` give the exact condition for each (the other electable
  torrents do not free enough), `Planner.NegativeIsElected` a plan, and
  `PlanToRun.NegativeActedOnExactly` and `PlanToRun.VetoedActedOnExactly` what a run then does.
- A fire skipped because another run holds the lock is not always retried promptly, as
  internal/triggers/disk_watcher.go:143-146 says: `DiskWatcher.RetriedExactly` gives the exact
  condition and `DiskWatcher.SkippedFireCanWait` a trace.
- The downsampling upsert overwrites (internal/store/retention_repos.go:37-45) and the production
  cutoff is not day-aligned (internal/pollers/downsampler.go:89): `Downsample.ConservedExactly`
  gives the exact condition and `Downsample.UnalignedCutoffLosesSamples` the loss. Aligned is meant
  in text order, as the store compares: a whole second sorts after its fractions, so a cutoff at
  midnight splits the day it begins, and only the day's first nanosecond does not
  (`Timestamps.SplitsExactly`, `Timestamps.MidnightCutoffLosesSamples`).
- Per-torrent and library-wide statistics can differ for exactly the torrents that are not
  settled: a raw sample stands at the midnight of a daily row with another counter, at the newest
  timestamp or at the anchor's, the two are apart in time, and a counter grew between them
  (`SnapshotQueries.AnswerIsUniqueExactly`, with `SnapshotQueries.TieIsAmbiguous` for a family of
  them). Day-aligned downsampling leaves every torrent settled
  (`SnapshotStore.AlignedRunsAreSettled`).
- A history that outruns its pages can lose an update for good, at the shipped page size as at any
  other (`ImportOutrun.PagesLoseAnUpdate`). It does so if and only if a later page brings a newer
  record of a file than the first page that brings the file
  (`ImportOutrun.GatherEffectExactly`, `ImportOutrun.AlwaysFullExactly`); growth of at most a page
  between two requests cannot (`ImportOutrun.SlowGrowthIsBenign`).
- The tracker-dead countdown starts its maximum at the zero time, so for earlier deaths it agrees
  with the gate only under the condition in `Policy.EligibleAgrees`.
- The HTTP trigger plans before it takes the lock (internal/server/handlers_runs.go:75, :90).
  Pressure and command-line runs plan inside it (internal/triggers/disk_watcher.go:165-182,
  cmd/triagearr/run.go:74-83). From every reachable state, someone can be in another hold between
  a plan and its execution if and only if the planner was not inside the executing hold
  (`PlanFreshness.OvertakenExactly`). Two triggers that planned from the same library then act on
  the same torrents (`LiveRun.PlannedTogetherActAlike`), although internal/actor/actor.go:254-256
  says that evicting a torrent keeps a later run from re-targeting it.
- The bytes a run claims are the sizes recorded, not what its deletes free: they agree if and only
  if every listed file that was missing is empty (`ReaperBytes.ClaimAgreesExactly`), and a torrent
  whose files were all gone is claimed in full (`ReaperBytes.ClaimWithoutFreeing`).

## Model

| member | source | states |
|---|---|---|
| RunLock.MutualExclusion | internal/runlock/runlock.go:61-112 | After any interleaving of channel, flock, rollback, hand-over, clear, unflock, drain and crash steps, two goroutines between a successful TryAcquire and their unflock are the same one (across processes: when both have the lock file) |
| RunLock.DrainFirstBreaksExclusion | internal/runlock/runlock.go:103-112 | Draining the channel before unlocking admits two holders: the order inside Release is essential |
| RunLock.NoStaleLock | internal/runlock/runlock.go:61-112 | When every goroutine is out or crashed, no slot, registry entry or (barring a failed unflock) file lock is left and anyone can acquire |
| RunLock.StopHitsOnlyTheArmedRun | internal/runlock/runlock.go:92-100 | A stop request cancels only the hold this process's goroutine is in and armed with that run id |
| RunLock.StopNeverReachesAReleasedRun | internal/server/handlers_runs.go:126-162 | Once Release has started, no later stop request in any interleaving reaches that run |
| RunLock.Lock.TryAcquire | internal/runlock/runlock.go:61-74 | Succeeds exactly when the slot and the file lock are obtainable, is a path of the machine, and leaves no trace on failure |
| RunLock.Lock.Arm | internal/runlock/runlock.go:80-85 | Registers the run of the current hold, as the machine's Arm step |
| RunLock.Lock.RequestStop | internal/runlock/runlock.go:92-100 | Answers yes exactly for the armed run and then cancels exactly its hold |
| RunLock.Lock.Release | internal/runlock/runlock.go:103-112 | Clears, unlocks and drains in that order, as a path of the machine that removes the goroutine |
| RunClients.HandlePostRun | internal/server/handlers_runs.go:62-147 | Which of the six answers is given, exactly; a live run is recorded only by a goroutine that took the slot, with exactly the planned items or none; on every failure the handler ends outside the lock; on success exactly the executing goroutine holds the slot, armed with the run |
| RunClients.ExecuteRunAsync | internal/server/handlers_runs.go:153-162 | Runs the actor on the recorded run, marks it aborted exactly when it did not end well, and always gives the slot back, as Release's path of the machine |
| RunClients.HandleStopRun | internal/server/handlers_runs.go:168-192 | Accepts exactly for a pending or running run armed in this process, and then cancels that run's hold |
| RunStore.Runs.InsertRun | internal/store/runs_repos.go:14-31 | A new id and a run without items, or nothing |
| RunStore.Runs.InsertRunItems | internal/store/runs_repos.go:34-60 | All items or none; without items nothing can fail |
| LiveRun.PostAndExecute | internal/server/handlers_runs.go:62-162 | A request that launches executes the plan it recorded, starting only the first of its items, and frees the slot; any other acts on nothing |
| LiveRun.ActsOnThePlan | internal/actor/actor.go:119-182 | Whatever fails, a run of a recorded plan starts actions for the first of the planned items, in rank order, with their hashes and sizes, and for nothing else |
| LiveRun.PlannedTogetherActAlike | internal/server/handlers_runs.go:75-99 | Two runs planned from the same library act on the same torrents: what one starts begins what the other starts |
| PlanFreshness.HeldPlanIsFresh | internal/triggers/disk_watcher.go:163-186 | Between any two moments inside one hold nobody acquires and nobody is in another hold, in any process |
| PlanFreshness.PlanBeforeLockCanBeStale | internal/server/handlers_runs.go:75-99 | From every reachable state a goroutine that plans outside the lock can come to execute the plan after another was in a hold, without any crash |
| PlanFreshness.OvertakenExactly | internal/server/handlers_runs.go:75-99 | A plan can be overtaken before it is executed if and only if the planner was not inside the executing hold when it planned |
| PlanFreshness.CanRest | internal/runlock/runlock.go:61-112 | From every reachable state everyone inside can get out without a crash, and the machine comes to rest |
| Reaper.Actor.Do | internal/x/retry/retry.go:45-79 | The attempts made are those of the retry specification, which `ReaperFate.AttemptExactly` reads off the world's answers |
| ReaperSafety.AttemptAppends | internal/x/retry/retry.go:45-79 | At most the allowed attempts, all but the last transient, success exactly when the last one succeeded |
| ReaperFate.AttemptExactly | internal/x/retry/retry.go:45-79 | A retried call makes one attempt after another exactly while the answers are transient and the budget lasts, and succeeds if and only if its last attempt is accepted |
| ReaperFate.SucceedsExactly | internal/x/retry/retry.go:45-79 | It succeeds if and only if an attempt within the budget is accepted after transient failures only, and ends with that attempt |
| ReaperFate.ThirdAttemptCounts | internal/x/retry/retry.go:19-69 | With the default budget two transient failures lead to exactly one more attempt, whose answer decides |
| Reaper.Actor.Execute | internal/actor/actor.go:119-182 | Writes exactly the specified log of calls for any world |
| Reaper.Actor.ProcessCandidate | internal/actor/actor.go:202-263 | One candidate's calls: links, fan-out, link-count check, reap, finish, forget |
| Reaper.Actor.FanoutArr | internal/actor/actor.go:323-349 | The *arr deletes and their audit rows |
| Reaper.Actor.MarkRemaining | internal/actor/actor.go:351-355 | Not-attempted rows for the links that follow a failure |
| Reaper.Actor.Check | internal/actor/actor.go:272-315 | The stats made and the verdict on the hardlinks are those of the check's specification, which `ReaperFate.CheckExactly` reads off the world's answers |
| ReaperFate.CheckExactly | internal/actor/actor.go:272-315 | The check is clear if and only if save path and file list are known, the list is not empty and every file is absent or has one name when it is looked at; it finds a conflict if and only if the first file for which that fails has another name |
| ReaperFate.FanoutExactly | internal/actor/actor.go:323-349 | The *arr deletes succeed if and only if every link has a deleter and each retried delete is accepted in time |
| ReaperFate.EveryActionMeetsItsFate | internal/actor/actor.go:202-263 | Every action of every run ends as the world's answers decide: in the status of the first step that fails, or reaped, with the size claimed and the torrent forgotten once that is stored |
| ReaperFate.SafeIsReaped | internal/actor/actor.go:202-263 | In every run a stored action whose links are all deleted and whose listed files are all safe goes on to the delete of its torrent |
| ReaperSafety.EveryReapIsJustified | internal/actor/actor.go:202-349 | In every run every qBittorrent delete is preceded by successful deletes of all the action's *arr links and by a stat of every file of a nonempty list, each absent or with one link |
| ReaperSafety.RemovalIsHarmless | internal/actor/actor.go:272-315 | Removing files that are absent or singly linked takes no name from an inode that has another and frees exactly their inodes' bytes |
| ReaperSafety.HardlinkSafety | internal/actor/actor.go:202-349 | With no interference between the stats and the delete, every reap of every run is such a removal |
| ReaperSafety.RefusedRunsDoNothing | internal/actor/actor.go:119-145 | A run that is missing, not live or not from disk pressure, a request or the command line makes no call after reading it, and no other run stops there |
| ReaperSafety.ReturnsExactly | internal/actor/actor.go:119-182 | Execute returns without an error if and only if the run could be read and is not live, or is from an allowed trigger and its first and last marks were stored |
| ReaperSafety.OnlyTheReapedAreForgotten | internal/actor/actor.go:250-263 | In every run a torrent is evicted from the store exactly after its success was stored |
| ReaperRun.RunProgress | internal/actor/actor.go:146-181 | Whatever fails, the started items are a prefix of the plan within the cap, the final status is "stopped" exactly when an item remained and a stop was pending, and nothing starts while one is |
| ReaperRun.EntriesAreInFlight | internal/actor/actor.go:146-182 | Candidates never interleave: each entry between the opening and the final mark belongs to the action started last |
| ReaperRun.StopFinishesOnlyTheCandidateInFlight | internal/actor/actor.go:146-176 | After a stop request no further action is started, every later entry but the final mark belongs to the candidate then in flight, and the run ends stopped exactly when another item remained |
| ReaperAudit.StoryStatus | internal/actor/actor.go:357-368 | An action's terminal status is a function of its audit rows |
| ReaperAudit.CandidateTold | internal/actor/actor.go:202-368 | With a working store a candidate's rows are those of one story, its ok rows the links really deleted, no *arr call when a deleter is missing, and one terminal status with the size exactly when reaped |
| ReaperRun.AuditIsFaithful | internal/actor/actor.go:187-368 | Of every action of every run with a working store: the rows, deletions, calls and status are those of one story |
| ReaperRun.BytesConserved | internal/actor/actor.go:242-253 | A run claims between zero and the sizes of its items, and all of them exactly when every item succeeded (if none is empty) |
| ReaperBytes.EveryClaimIsBacked | internal/actor/actor.go:231-263 | In every run a claim is its action's recorded size and stands right behind the accepted delete of its torrent and the audit row of it |
| ReaperBytes.ClaimAgreesExactly | internal/actor/actor.go:231-315 | When the size was recorded from the files' lengths and nobody else changed the volume, a claim exceeds the bytes freed by the lengths of the missing files, and agrees if and only if these are empty |
| ReaperBytes.ClaimWithoutFreeing | internal/actor/actor.go:231-315 | A run that claims a full size while every delete frees nothing |
| Planner.Plan | internal/decider/decider.go:75-169 | The plan or error for every combination of failing and missing inputs; a plan is exact and minimal for the bytes needed |
| Planner.Consider | internal/decider/decider.go:132-155 | One row of the walk: its item exactly when it is electable, and whether it is filtered for hardlinks |
| Planner.Walk | internal/decider/decider.go:129-169 | The loop over the score list: some stretch of rows was walked, broken off only by the row that reached the need; what is elected is the greedy choice among its electable rows and the rest of those in scope are counted as filtered |
| Planner.Elect | internal/decider/decider.go:129-169 | The walk down the score list elects the shortest prefix of the electable torrents that reaches the need, and counts exactly those in scope that it skipped for hardlinks up to the row it stopped at |
| Planner.NeededBytes | internal/decider/decider.go:175-181 | Zero at or above the target, else within one byte of the missing share |
| Planner.CandidatesAre | internal/decider/decider.go:131-151 | The electable torrents are exactly the in-scope, nlink-eligible rows of the list |
| Planner.PlanIsDetermined | internal/decider/decider.go:129-169 | An elected plan is unique, its count of torrents filtered for hardlinks included |
| PlanMeaning.InScopeExactly | internal/decider/decider.go:103-116 | A torrent is on the volume if and only if its save path is the volume's or goes on from it with a slash, whatever slashes either ends with |
| PlanMeaning.ElectableExactly | internal/decider/decider.go:131-151 | A row may be elected if and only if the torrent last listed for its hash is on the volume and has at most one name sampled, or two if an *arr imported it |
| PlanMeaning.ElectedExactly | internal/decider/decider.go:129-169 | A plan has an item for a row that may be elected if and only if those before it never covered the need; the item stands at their number, with the row's hash, name and score and the torrent's size |
| PlanMeaning.NothingElseElected | internal/decider/decider.go:129-169 | Every item of a plan is that of a row that may be elected |
| PlanMeaning.RunsOutExactly | internal/decider/decider.go:162-169 | A plan reports that it ran out of candidates if and only if all that may be elected never covers the need; its estimate is then all of it, and it records the free share it was made for |
| Planner.LastItemIsNeeded | internal/decider/decider.go:152-165 | Without its last item a plan falls short |
| Planner.TargetReachedWithinOneByte | internal/decider/decider.go:152-181 | target_reached brings the volume to its target within one byte |
| Planner.GoesBeyondExactly | internal/decider/decider.go:129-169 | For any classification whose good candidates come first: a plan goes beyond them if and only if there are others and the good ones fall short |
| Planner.TopIsElected | internal/decider/decider.go:131-169 | For a positive need the top electable torrent is elected first |
| Planner.NoScoreFloor | internal/decider/decider.go:131-169 | With rows listed highest first, a plan elects a negative score if and only if one is electable and the electable torrents without one do not free enough |
| Planner.NegativeIsElected | internal/decider/decider.go:131-169 | A plan that elects a torrent with a negative score beside one without, and reaches its target |
| PlanToRun.FreedWithinEstimate | internal/decider/decider.go:152-165 | A run frees at most its plan's estimate, and all of it exactly when every elected candidate succeeded (if none is empty) |
| PlanToRun.NothingBeyondTheNeed | internal/decider/decider.go:152-165 | No candidate is started once what earlier ones freed covers the need |
| PlanToRun.VetoedActedOnLast | internal/actor/actor.go:146-181 | A vetoed torrent is acted on only after every electable torrent that is not vetoed |
| PlanToRun.ActsBeyondExactly | internal/actor/actor.go:146-181 | When the good candidates come first, a run acts on another exactly when it starts more actions than there are good ones, which then fall short of the need; a full run does exactly when they do |
| PlanToRun.NegativeActedOnExactly | internal/actor/actor.go:146-181 | The same for torrents with a negative score |
| PlanToRun.VetoedActedOnExactly | internal/actor/actor.go:146-181 | The same for torrents under the hit-and-run veto, where it dominates |
| Policy.AnyTrackerAlive | internal/scorer/factors.go:38-50 | True exactly for an empty list or one with a tracker that is not dead |
| Policy.AllTrackersDeadSustained | internal/scorer/factors.go:58-72 | True exactly when there are trackers and each has been dead for the grace |
| Policy.TrackerPolicyFor | internal/scorer/factors.go:88-127 | The strictest of the resolved per-tracker policies, or the defaults without trackers |
| Policy.MergedExactly | internal/scorer/factors.go:88-127 | A ratio, seeding days or seeders meet the merged policy if and only if they meet every tracker's own: the override of its host if enabled, else the defaults |
| Policy.MergeIgnoresOrder | internal/scorer/factors.go:88-127 | The merge depends only on which policies occur |
| Policy.RatioComesFromATracker | internal/scorer/factors.go:88-127 | The merged ratio and days are some tracker's exactly when some tracker's is not negative |
| Policy.TrackerDeadEligibleAt | internal/server/handlers_torrents.go:273-291 | Nothing exactly when the gate holds now, else the first instant it holds, for deaths not before the zero time |
| Policy.EligibleAgrees | internal/server/handlers_torrents.go:273-291 | The exact condition under which the countdown agrees with the gate, for all deaths |
| Policy.SustainedIsNotAlive | internal/scorer/factors.go:38-72 | The dead and the alive gate are never both open |
| Scoring.ScoreWithPrefetched | internal/scorer/scorer.go:262-287 | The factors over the merged policy and the liveness gate, each by what it means, and the sum of their contributions |
| Scoring.FactorsByMeaning | internal/scorer/factors.go:142-282 | The eight factors mean what the source documents: the ratio obligation met by ratio and seed days, the share of the average velocity a torrent lacks, its age in days, rarity up to the threshold, the logarithm of its swarm, the veto inside the window, sustained death and boost, each with its weight |
| Scoring.MeansOnce | internal/scorer/factors.go:142-282 | Those meanings determine the list of factors |
| Scoring.VelocityHasNoUnit | internal/scorer/factors.go:195-204 | Scaling a velocity and the average together changes nothing |
| WeightBounds.FreeWithin | internal/scorer/factors.go:142-282 | Outside the veto a score less its boost stays between two extents of the weights |
| WeightBounds.FurthestScores | internal/scorer/factors.go:142-282 | Each extent is reached by an accepted policy, or approached where the rarity guard and the swarm bonus cannot both be kept at zero |
| VetoDominance.VetoDominatesExactly | internal/scorer/factors.go:142-282 | Over the policies the API accepts, every vetoed torrent, boosted or not, scores below every other one within the age and log bounds if and only if the spread of the other weights is below 8000, or is 8000 and not attained |
| VetoDominance.DefaultWeightsDominate | internal/scorer/factors.go:142-282 | The shipped weights meet the condition for a century of age and a log term of seven |
| VetoDominance.VetoedOnlyAfterAllOthers | internal/store/scoring_repos.go:571-600 | With rows listed highest first, a plan elects a vetoed torrent only after every electable other one |
| VetoDominance.VetoedElectedExactly | internal/decider/decider.go:131-169 | Where the veto dominates, a plan elects a vetoed torrent if and only if one is electable and the electable torrents without a veto do not free enough |
| VetoDominance.VetoedCanBeElected | internal/decider/decider.go:131-169 | With or without dominance, when every listed torrent is vetoed one is still elected |
| BoostOrder.BoostOutranksExactly | internal/scorer/factors.go:142-282 | Every boosted torrent outside the veto scores above every torrent that is not boosted if and only if the spread of the other weights is below 2000, or is 2000 and not attained |
| BoostOrder.DefaultBoostOutranksExactly | internal/scorer/factors.go:142-282 | With the shipped weights and a log term up to seven it does exactly for ages below 8850 days |
| BoostOrder.BoostedElectedFirst | internal/decider/decider.go:129-169 | Where the boost outranks, a plan elects a torrent without it only after every electable boosted one outside the veto |
| SnapshotQueries.ScoringSnapshotStatsAll | internal/store/scoring_repos.go:198-311 | For every torrent, listed or not, the library-wide statistics are an answer of the per-torrent queries, which `SnapshotMeaning.AnswersByMeaning` spells out |
| SnapshotMeaning.PointsAre | internal/store/scoring_repos.go:149-193 | The points of the velocity queries are the raw samples and the daily maxima above zero at their midnights, and the recent ones those from the 30-day cutoffs on |
| SnapshotMeaning.SamplesByRow | internal/store/scoring_repos.go:111-147 | A raw sample or daily row adds itself to its torrent's seeder average exactly from the 7-day cutoff on |
| SnapshotMeaning.VelocityByMeaning | internal/store/scoring_repos.go:85-107 | The velocity times the days between the two points, thirty at most, is the counter's growth; it is zero when the counter shrank, the points are not in order, or one is missing or does not parse |
| SnapshotMeaning.AnswersByMeaning | internal/store/scoring_repos.go:111-193 | In every answer the average times the count is the total, the velocity is that from an oldest point of the window to a newest point, and the ratio is a latest one |
| SnapshotMeaning.SteadyVelocity | internal/store/scoring_repos.go:85-107 | A torrent whose counter grows by r a day over points at most thirty days apart has the velocity r in every answer |
| SnapshotQueries.VelocityPointsByHash | internal/store/scoring_repos.go:316-330 | The map holds exactly the first row of each torrent |
| SnapshotQueries.NewestIsUniqueExactly | internal/store/scoring_repos.go:149-193 | A torrent's newest point is unique if and only if no raw sample and daily row tie, with different counters, at its largest timestamp |
| SnapshotQueries.AnchorIsUniqueExactly | internal/store/scoring_repos.go:149-193 | Its anchor is unique if and only if none tie at the smallest timestamp of the window |
| SnapshotQueries.AnswerIsUniqueExactly | internal/store/scoring_repos.go:111-193 | With unique keys and distinct midnights a torrent's statistics have one answer if and only if it is settled: neither end tied, or the ends not apart in time, or no counter growing between them |
| SnapshotQueries.PerHashIsUnique | internal/store/scoring_repos.go:111-193 | A settled torrent's own answer is unique, hence equal to the library-wide one |
| SnapshotQueries.TieIsAmbiguous | internal/store/scoring_repos.go:111-193 | A family of stores whose tied torrent is not settled and has two answers |
| SnapshotStore.AlignedRunsAreSettled | internal/store/retention_repos.go:19-61 | After any passes with cutoffs that split no day in text order and inserts behind no cutoff, every torrent the scorer reads is settled and has one answer |
| ScorePass.GlobalAvgFromStats | internal/scorer/scorer.go:227-240 | The mean of the positive velocities, whatever order the map is visited in |
| VerdictMeaning.AverageByMeaning | internal/scorer/scorer.go:227-240 | The average times the number of torrents with a positive velocity is the total of their velocities; without any it is zero |
| ScorePass.AverageDependsOnLookups | internal/scorer/scorer.go:205-240 | Absent torrents and zero statistics weigh the same in the average |
| ScorePass.ComputeGlobalAvgVelocity | internal/scorer/scorer.go:212-221 | Seeding the library's statistics with the torrent's own does not change whose average it is |
| ScorePass.GroupByHash | internal/store/scoring_repos.go:376-423 | Each torrent's list is its rows in row order |
| ScorePass.MediaListingsAgreeExactly | internal/store/scoring_repos.go:354-403 | The folded and the raw listing of linked media agree on all torrents if and only if the stored ids are in lower case |
| ScorePass.ScoreIgnoresTrackerOrder | internal/scorer/factors.go:38-72 | Neither order nor repetition of tracker rows changes a score |
| ScorePass.ScoreOne | internal/scorer/scorer.go:56-82 | Fails exactly when a query does; otherwise its breakdown, factors included, is the verdict on the torrent, stored unless the write fails |
| ScorePass.ScoreAll | internal/scorer/scorer.go:119-188 | Stores nothing exactly when a query or the write fails or the pass is cancelled before a torrent; otherwise every row is the verdict on its torrent |
| ScorePass.VerdictIsUnique | internal/scorer/scorer.go:56-287 | With unique keys, distinct midnights and settled torrents a torrent has one verdict, so ScoreOne and ScoreAll give the same breakdown |
| VerdictMeaning.VerdictByMeaning | internal/scorer/scorer.go:56-287 | Every verdict consists of the factors by their meaning, over the torrent's statistics by their meaning, the library's average, its trackers and their policy, with their sum as score and the exclusion reasons of its media |
| ImportSync.Fetch | internal/clients/arr/arrhistory/arrhistory.go:49-81 | Terminates; fails exactly when a page it asks for fails; otherwise gathers the pages up to the first known id or short page, oldest first |
| ImportSync.LastPageExactly | internal/clients/arr/arrhistory/arrhistory.go:49-74 | A fetch asks for one page after another up to the first that is not full or lists a record already known |
| ImportSync.ReverseInPlace | internal/clients/arr/arrhistory/arrhistory.go:76-79 | Reverses the array in place |
| ImportSync.ParseIntReadsPrint | internal/clients/arr/arrhistory/arrhistory.go:93-96 | A file id written in decimal reads back exactly when it fits 64 bits |
| ImportSync.ConvertKeepsId | internal/clients/arr/arrhistory/arrhistory.go:86-105 | A usable record keeps its history id, as every import theorem needs; `ImportRecords.ConvertExactly` says which records are usable |
| ImportRecords.NumeralsAreDecimal | internal/clients/arr/arrhistory/arrhistory.go:93-96 | The numerals meant below are decimal: one for each digit, and one digit more for ten times as much |
| ImportRecords.ParseIntExactly | internal/clients/arr/arrhistory/arrhistory.go:93-96 | A file id reads as a number if and only if it is an optional sign, any zeros and the number's numeral, and the number fits 64 bits |
| ImportRecords.ConvertExactly | internal/clients/arr/arrhistory/arrhistory.go:86-105 | A record has an import if and only if it has a download id, its client is not named or is qBittorrent in any casing, and its file id denotes a 64-bit number; the import carries that number, the paths, the date, the id and the folded download id |
| ImportRecords.UsableExactly | internal/clients/arr/arrhistory/arrhistory.go:66-74 | A list of records gives the imports of those of use, in order |
| ImportSync.GatherEffect | internal/clients/arr/arrhistory/arrhistory.go:49-81 | While the history grows by at most a page between requests, storing a fetch has the effect of storing every new usable record of the first view in order |
| ImportSync.GatherOfStill | internal/clients/arr/arrhistory/arrhistory.go:49-81 | On a history that stands still the fetch is exactly the new usable records, oldest first |
| ImportSync.GatherMissesNothing | internal/clients/arr/arrhistory/arrhistory.go:49-81 | However fast the history grows, no new usable record of the first view is missed |
| ImportSync.ImportStore.UpsertArrImports | internal/store/arr_imports_repos.go:35-70 | All rows or none; the last import of a file wins |
| ImportSync.ImportStore.MaxHistoryID | internal/store/arr_imports_repos.go:74-85 | The highest stored history id, or zero |
| ImportSync.ImportStore.SyncImports | internal/pollers/arr_poller.go:132-152 | Stores the delta since the cursor, or changes nothing; it succeeds exactly when the cursor is read, every page asked for is served and the imports found, if any, are written |
| ImportSync.DeltaSyncIsFullSync | internal/pollers/arr_poller.go:132-152 | After any sequence of failed and successful polls the table is that of all records seen so far |
| ImportRecords.StoredExactly | internal/pollers/arr_poller.go:132-152 | After any polls a file has a row if and only if a record seen is of use for it, and the row is that of the last such record |
| ImportSync.SuccessEqualsOneFetch | internal/pollers/arr_poller.go:132-152 | After a successful poll the table equals one fetch from cursor zero into an empty table |
| ImportSync.CursorNeverMovesBack | internal/store/arr_imports_repos.go:74-85 | The cursor never decreases |
| ImportSync.StoredIdsAreLower | internal/clients/arr/arrhistory/arrhistory.go:97-104 | Every stored download id is in lower case, as the media listings need |
| ImportOutrun.GatherEffectExactly | internal/clients/arr/arrhistory/arrhistory.go:49-81 | However fast the history grows, storing a fetch has the effect of storing every new usable record below its reach in order if and only if it is benign: for every file the first page that brings it brings its last record below the reach |
| ImportOutrun.StoredPollExactly | internal/pollers/arr_poller.go:132-152 | A poll from a full table leaves the full table of what it reached if and only if its fetch is benign |
| ImportOutrun.AlwaysFullExactly | internal/pollers/arr_poller.go:132-152 | Over any polls, the table was full after each of them if and only if every stored fetch was benign |
| ImportOutrun.SlowGrowthIsBenign | internal/clients/arr/arrhistory/arrhistory.go:49-81 | Growth of at most a page between two requests is benign |
| ImportOutrun.FastGrowthLosesAnUpdate | internal/clients/arr/arrhistory/arrhistory.go:49-81 | Outrun by more than a page, whatever its size, a fetch stores the older import of a file and moves the cursor past the newer one |
| ImportOutrun.OutrunExists | internal/clients/arr/arrhistory/arrhistory.go:49-81 | A history, its growth and the imports for every page size and page |
| ImportOutrun.PagesLoseAnUpdate | internal/clients/arr/arrhistory/arrhistory.go:49-81 | For every page size some history loses an update |
| TrackerTable.TorrentTrackers.ReplaceTrackers | internal/store/trackers_repos.go:29-117 | Rewrites all rows, carrying over or seeding the date of death, or changes nothing on a failure or a repeated url |
| TrackerTable.DatesMatchStatus | internal/store/trackers_repos.go:95-110 | A dead tracker has a date no later than the last poll; any other has none |
| TrackerTable.DeadSinceRunBegan | internal/store/trackers_repos.go:29-117 | The dead trackers are exactly those in a dead run, dated by the earlier of the poll that began it and the torrent's last activity known then |
| TrackerTable.RowsAreLastReport | internal/store/trackers_repos.go:29-117 | The stored trackers are those of the last poll that committed, with the host and status it reported |
| TrackerTable.GateReadsRows | internal/scorer/factors.go:58-72 | The scorer's gate over any listing is the gate over the stored rows |
| TrackerTable.GateAcrossPoll | internal/store/trackers_repos.go:29-117 | An open gate survives a poll exactly when the poll reports only dead trackers, at least one, and any new one has been inactive for the grace |
| TrackerTable.GateStaysUntilRecovery | internal/scorer/factors.go:58-72 | With the tracker set fixed the open gate stays open over any polls until a recovery |
| Limiter.IpRateLimiter.Take | internal/server/middleware.go:214-232 | Map and list stay those of the request history; the request is served by the first entry, which is its address's |
| Limiter.TableIsRecency | internal/server/middleware.go:214-232 | The listed addresses are the most recently used distinct ones, as many as fit, in recency order |
| Limiter.KeysAreRecent | internal/server/middleware.go:214-232 | The map's keys are exactly those addresses |
| Limiter.KeptExactly | internal/server/middleware.go:214-232 | An address keeps its limiter between two requests if and only if fewer distinct other addresses than the bound came in between, or none |
| Limiter.ListedExactly | internal/server/middleware.go:214-232 | An address is in the table if and only if fewer distinct others than the bound have been seen since its last request, or none |
| Limiter.MadeForItsAddress | internal/server/middleware.go:214-232 | A limiter was made by a request of the address that holds it, so no two addresses ever share one |
| ScorerLoop.NoLostWakeUp | internal/scorer/loop.go:29-79 | After any signal, dropped or not, a pass starts within six consumer steps plus one per further signal, unless cancelled |
| ScorerLoop.AwakeAlways | internal/pollers/poller.go:41-46 | A signal newer than the last pass start leaves a token or a pass on its way |
| ScorerLoop.NeverStuck | internal/scorer/loop.go:37-56 | A scorer that owes a pass always has a step of its own to take |
| ScorerLoop.AtMostOnePassPerSignal | internal/scorer/loop.go:45-47 | Bursts collapse: never more passes than signals |
| ScorerLoop.StateIsHistory | internal/scorer/loop.go:29-79 | After any steps the channel holds a token exactly when there was a signal since the last receive, and a pass is owed exactly when there was one since the last pass started |
| ScorerLoop.RunOnce | internal/pollers/poller.go:31-47 | A tick signals exactly when it succeeds, as the machine's signal step, and never blocks |
| ScorerLoop.Drain | internal/scorer/loop.go:71-79 | Empties the channel whatever arrives meanwhile, as steps of the machine |
| ScorerLoop.Turn | internal/scorer/loop.go:37-56 | One turn is a path of the machine with exactly one pass, unless cancelled; a token is left exactly for a signal after the drain, and the pass is owed exactly for one during it |
| TrackerLoop.NoLostWakeUp | internal/pollers/tracker_poller.go:67-86 | After any signal a catch-up pass starts within three steps plus one per further signal or sweep, unless cancelled |
| TrackerLoop.AwakeAlways | internal/pollers/tracker_poller.go:67-86 | A signal newer than the last catch-up leaves a token or a running debounce |
| TrackerLoop.NeverStuck | internal/pollers/tracker_poller.go:67-86 | A poller that owes a catch-up always has a step of its own to take |
| TrackerLoop.StateIsHistory | internal/pollers/tracker_poller.go:67-86 | After any steps the channel holds a token exactly when there was a signal since the last receive, the timer runs exactly when there was a receive since the last catch-up, and a catch-up is owed exactly when there was a signal since |
| TrackerLoop.Poller.Turn | internal/pollers/tracker_poller.go:67-86 | One turn of the select takes one of the branches that are ready, if any, with the pass it runs, as a path of the machine |
| TrackerLoop.AnyReadyBranch | internal/pollers/tracker_poller.go:67-86 | Any of the ready branches can be the one taken |
| TrackerLoop.Poller.Loop | internal/pollers/tracker_poller.go:67-86 | The steps are those of the first sweep and then of the turns until one is cancelled, as a path of the machine |
| Downsample.Snapshots.DownsampleRange | internal/store/retention_repos.go:19-61 | Rolls back, or writes one aggregate row per torrent and day, deletes the old raw rows and reports both counts |
| Downsample.AggregateRows | internal/store/retention_repos.go:28-36 | Average, minimum, maximum and count of a group whatever the row order |
| DailyMeaning.PassByMeaning | internal/store/retention_repos.go:19-61 | For every torrent and day with a raw row before the cutoff the daily row counts exactly those rows, bounds and attains their extremes, and averages them; other daily rows and later raw rows stay |
| DailyMeaning.DescribedOnce | internal/store/retention_repos.go:28-36 | Only one daily row does |
| Downsample.WrittenEqualsDeleted | internal/store/retention_repos.go:19-61 | The samples written total exactly the raw rows deleted |
| Downsample.AverageBetween | internal/store/retention_repos.go:28-36 | Minimum, average and maximum are in order |
| Downsample.PassLosesOverwritten | internal/store/retention_repos.go:37-45 | A pass loses exactly the samples of the daily rows it overwrites |
| Downsample.ConservedExactly | internal/store/retention_repos.go:19-61 | A pass conserves the samples if and only if it overwrites no row |
| Downsample.RepeatChangesNothing | internal/store/retention_repos.go:19-61 | Repeating a cutoff changes nothing |
| Downsample.SamplesConserved | internal/store/retention_repos.go:19-61 | Over any sequence of inserts and non-decreasing cutoffs that split no day in text order, with nothing stored behind them, no sample is lost |
| Downsample.UnalignedCutoffLosesSamples | internal/pollers/downsampler.go:89-90 | A cutoff between two snapshots of one day loses samples at the next pass |
| Timestamps.FirstOfDay | internal/store/repos.go:17 | The first moment of a day, in text order, is its first nanosecond |
| Timestamps.MidnightComesAfter | internal/store/repos.go:17 | Midnight comes after exactly the moments of the day's first second |
| Timestamps.SplitsExactly | internal/store/retention_repos.go:19-30 | A cutoff splits a day if and only if it is not the first nanosecond of one |
| Timestamps.OnlyTheFirstIsAligned | internal/store/retention_repos.go:19-30 | For any ranks that follow the text order, no other cutoff of a day is aligned |
| Timestamps.MidnightBetween | internal/store/repos.go:17 | Midnight is ranked between a moment of the day's first second and any that is not in it |
| Timestamps.MidnightCutoffLosesSamples | internal/pollers/downsampler.go:89-90 | A torrent with a sample on either side of a midnight cutoff on one day loses samples at the next pass |
| DiskWatcher.Watcher.OnTick | internal/triggers/disk_watcher.go:123-153 | The outcome of a tick and the watcher's new memory |
| DiskWatcher.AttemptsExactly | internal/triggers/disk_watcher.go:123-153 | A tick attempts a fire if and only if it is below the threshold and opens an episode or the last successful fire is a grace ago; its outcome is the fire's |
| DiskWatcher.FiresAreGraceApart | internal/triggers/disk_watcher.go:137-153 | Successful fires of one episode are at least the grace apart |
| DiskWatcher.RetriedExactly | internal/triggers/disk_watcher.go:142-151 | When a skipped or failed attempt is retried by the next tick below the threshold |
| DiskWatcher.SkippedFireCanWait | internal/triggers/disk_watcher.go:142-151 | For every start and every interval below a third of the grace, a trace in which it is not |
| Notifications.Table.MaybeAlertShortfall | internal/triggers/disk_watcher.go:239-275 | Alerts exactly when listened to, readable and outside the reminder, and touches only the volume's row |
| Notifications.AlertsAreReminderApart | internal/triggers/disk_watcher.go:239-275 | Recorded alerts of one unbroken shortfall are at least the reminder apart |
| Notifications.AlertedAgainExactly | internal/triggers/disk_watcher.go:254-274 | The next look of a shortfall that is heard and readable alerts again if and only if the earlier alert was not recorded or the reminder has passed |
| Notifications.NewShortfallAlertsAtOnce | internal/triggers/disk_watcher.go:243-248 | A new shortfall alerts at once when the previous state was cleared |
| Notifications.Table.Reconcile | internal/triggers/health_watcher.go:80-103 | The event of a health check and the component's new row, no other row touched |
| Notifications.EventsAlternateExactly | internal/triggers/health_watcher.go:80-103 | Of two successive events the second repeats the first if and only if the first could not be recorded |
| Notifications.EventExactly | internal/triggers/health_watcher.go:80-103 | A check announces if and only if it can read the row and its health is not what the last check that could read and write found, or what the row said before any could |
| Notifications.DegradedSince | internal/triggers/health_watcher.go:80-103 | A recorded degradation keeps its date until the next event |
| Notifications.FirstEventIsDegraded | internal/triggers/health_watcher.go:80-103 | From a clean state the first event is a degradation |
| Notifications.HealthAlternates | internal/triggers/health_watcher.go:80-103 | With writes succeeding the events alternate from a degradation, and the row stands while degraded |
| Notifications.KeysAreSeparate | internal/triggers/health_watcher.go:81 | Distinct components and volumes never share a row |
| Scrub.SplitOnAny | internal/logging/redact.go:177-196 | The pieces, each after the first led by its separator and otherwise free of them, concatenate to the string |
| Scrub.SplitIsUnique | internal/logging/redact.go:177-200 | A string has only one such split |
| Scrub.ScrubSecretsInString | internal/logging/redact.go:105-158 | The scrubbed string, with `changed` exactly when some secret parameter was assigned |
| Scrub.ScrubIsUnique | internal/logging/redact.go:105-158 | A string has only one scrubbed form |
| Scrub.NothingToScrub | internal/logging/redact.go:107-109 | The cheap reject loses nothing |
| Scrub.ResplitGivesScrubbedPieces | internal/logging/redact.go:105-158 | Splitting the scrubbed string gives the scrubbed pieces |
| Scrub.ScrubIsIdempotent | internal/logging/redact.go:105-158 | Scrubbing twice is scrubbing once |
| Scrub.OnlySecretValuesChange | internal/logging/redact.go:105-158 | A piece keeps its name and what follows its value; only a secret parameter's value changes, to the mask |
| ScrubMeaning.SecretIsMasked | internal/logging/redact.go:105-158 | A parameter after ? or & keeps its name, and its value up to white space, a quote, a separator or the end becomes three asterisks if and only if the name up to any white space is secret; what stands before and after is scrubbed for itself |
| ScrubMeaning.OthersStay | internal/logging/redact.go:125-136 | What follows a separator without an equals sign, or without a name before it, stays |
| ScrubMeaning.StaysWithoutSeparator | internal/logging/redact.go:105-109 | A string without a separator stays |

## Left out

- The web interface, HTTP request and response shaping, authentication, sessions, rate-limit configuration and the token bucket itself.
- The SQL engine, migrations, pragmas, retention and vacuum; a transaction is one atomic step that may fail, and a query is what SQL allows it to answer.
- The *arr and qBittorrent clients and notification delivery; a call is an outcome (ok, transient, hard) or is assumed sent.
- Configuration, command line, fixtures, logging other than the scrubbing of strings (redactAttr's recursion into groups is not modelled).
- Sleeps, backoff and jitter between attempts; the retry loop's check of its context, which the actor shields from cancellation.
- Integer width: sizes, ids and counters are unbounded, except that file ids must fit 64 bits; floating-point rounding is not modelled.
- filepath.Join's cleaning of paths: a file's path is directory, slash, name.
- Exclusion reasons (protected, category and tag lists) are an arbitrary function of the torrent and its media, in order.
- Case folding: strings.ToLower and the database's LOWER are one arbitrary idempotent function.
- Timestamps that do not parse: a raw point with one makes the velocity zero, as in the code, but which strings parse is arbitrary.
- RunClients.HandlePostRun: the hand-over of the slot and the start of the goroutine are one step, what the handler answers is reduced to its outcome, and a run record to its mode, trigger and items.
- WeightBounds: policies with a negative field, which the API refuses (internal/server/handlers_scoring_policies.go:241-263), are outside the bounds.
- The conversion of a breakdown to a row (internal/scorer/scorer.go:166-171), which fails only when its factors cannot be written as JSON; a pass then skips the torrent.
- Closing the lock file, and a process that opens the lock path twice.
- fire's planning and persistence steps in the disk watcher are one outcome (fired, busy, failed); that it holds the lock meanwhile is covered by the lock's machine.
- PlanToRun.FreedWithinEstimate: assumes the sizes recorded for the elected torrents are not negative; the code does not check that.
- ReaperRun.AuditIsFaithful: for a store whose writes succeed; with failing audit writes rows can be missing, which the code tolerates.
- ScorerLoop.Turn: one turn of an endless loop, since a method here must end; TrackerLoop.Poller.Loop likewise makes any finite number of turns.
- ScorerLoop.NoLostWakeUp: bounds the consumer's own steps; that the scheduler and the timers let it take them is not modelled.
