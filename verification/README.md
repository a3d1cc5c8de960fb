# RaceCondition-Z, modelled and verified in Dafny

RaceCondition-Z is a race simulation built to exercise hand-written concurrency primitives: a linked
queue with many producers, a bounded ring with one producer and one consumer, a thread pool, and a
compare-and-swap loop for the fastest lap. This project models them and the race logic on top of
them, and proves what they are for. `dafny verify dfyconfig.toml` checks everything.

## How it is modelled

Each concurrent component has two forms.

* A **step model**: a state, an `Enabled` predicate (program order of each thread), a `Next` function
  and `Exec`/`Runs` over whole schedules. One step is one atomic access, one region under a mutex, or
  one access to shared memory that needs no lock. Theorems about `Reachable` states or about all
  schedules therefore quantify over every interleaving of any number of threads. Some fields are
  history (counters, logs): no step looks at them to decide what it does to the others.
* A **class** with the fields of the C++ object and methods with its branches and loops. For the
  queue, the ring, the pool and the penalty enforcer `Valid()` says that the object is in a state
  that some schedule of the step model reaches, and each action is recorded as the step it is, so the
  theorems about reachable states hold for every such object. `Valid()` of the generator says that a
  race reaches its states. The race state, the lap-time consumer, the leaderboard and the tick
  callback have no step model of their own behind the class: their methods state the whole effect of
  a call, and `FastestLap` and `LapPipeline` treat the first two step by step beside the class.
  A class method runs from call to return; where a call of another thread in the middle matters,
  the method takes what the others do meanwhile as a parameter (rival claims, whole calls between two
  loads, pushes between two polls, the order in which workers go on, pops between two ticks).

| file | what it models |
|---|---|
| `MpscProtocol.dfy`, `MpscQueue.dfy` | the linked queue: heap with address reuse, paused producers, a FIFO it refines |
| `BitMask.dfy`, `SpscProtocol.dfy`, `SpscQueue.dfy`, `SpscRuns.dfy` | masks and powers of two; the ring with its cached indices, also with loads that lag behind; what a thread sees that loads both indices |
| `PoolProtocol.dfy`, `ThreadPool.dfy`, `SingleFlight.dfy`, `DueJobs.dfy` | workers, wakeups, draining shutdown; the guard that submits each race-control job once at a time; which jobs many ticks submit |
| `FastestLap.dfy`, `HolderAgreement.dfy`, `Roster.dfy` | the claim of the fastest lap; when holder and time always agree |
| `LapPipeline.dfy`, `PipelineRuns.dfy` | ring, consumer thread and shutdown order together; runs without a dropped frame |
| `Simulation.dfy`, `Driving.dfy`, `Ranking.dfy`, `RaceBooks.dfy`, `TelemetryGenerator.dfy` | one car's tick and any number of ticks, what its formulas mean, ranking, what holds in every race, the generator object |
| `Records.dfy`, `RaceResult.dfy`, `Leaderboard.dfy`, `TickCallback.dfy`, `RaceTick.dfy` | the two records of the fastest lap and when they agree, the leaderboard, the callback of each tick, the tick and its callback together |
| `PenaltyProtocol.dfy`, `PenaltyStages.dfy`, `PenaltyBatches.dfy`, `PenaltyEnforcer.dfy` | warnings and penalties access by access; how far a penalty is after any run; the stream of events in any batches; the enforcer object |
| `Common.dfy`, `RaceTypes.dfy` | shared datatypes |

Floats are reals. Random draws and clock readings are inputs; a car's clock must advance strictly,
which is a `requires` where it matters. `std::sort` and `std::stable_sort` are insertion sorts whose
contracts say what the standard promises of them and no more. The roster is any list of drivers, the
track any track unless the default one is named, and the ring's capacity any power of two from 2 to 2^63.

## What came out false, and exactly when it is true

* Holder and time of the fastest lap can come from different claims when claims overlap
  (`FastestLap.HolderCanDisagree` gives a schedule). Whether that can happen is decided by the
  submitted claims: every interleaving ends with holder and time of one claim if and only if each
  claim below the initial time either has the fastest lap itself or is of a driver who also has a
  claim with the fastest lap (`HolderAgreement.AlwaysAgreesIff`). With one claim at a time, as wired
  in `main.cpp`, they agree for all claims (`FastestLap.OneClaimantHoldsTheTime`).
* The leaderboard's and the race state's fastest laps can part for laps under a millisecond, because
  the generator takes a best lap below 1 ms for "unset" (`RaceResult.ShortLapIsForgotten` gives a race
  and a run). They agree if and only if the fastest lap took at least a millisecond or is some
  driver's latest lap (`RaceResult.RecordsAgreeAfterTheRace`, `Records.RaceNeverBelowBoardIff`).
* A pool constructed with zero threads accepts tasks and its destructor drops them
  (`ThreadPool.ZeroWorkersDropTask`). All accepted tasks have completed after the destructor if and
  only if there is a worker or nothing was accepted (`ThreadPool.JoinedMeansAllCompleted`).
* `size_approx` loads the tail first and the head second. It counts the items published before the
  first load and not popped before the second if and only if the consumer has not overtaken the loaded
  tail in between (`SpscQueue.SizeOfTwoLoads`); it is always below the capacity. From every empty ring
  a run makes it report a full one (`SpscRuns.SizeAfterOvertaking`).
* `empty` loads the head first and the tail second. It is true if and only if the items published
  before the second load and not popped before the first are a whole number of turns of the ring
  (`SpscRuns.EmptyOfTwoLoads`). Asked by either side it is exact (`SpscRuns.EmptyForTheProducer`,
  `SpscRuns.EmptyForTheConsumer`); a third thread can be told "empty" of a ring that never is
  (`SpscRuns.EmptyMisleadsAThird`).
* A car stays inside its lap for all draws if and only if the lap is at least 37/150 km, the furthest
  a tick can go (`Simulation.StaysInLapIff`).

Where code and comments differ the code is followed: `extra_pit_time_` is set to 3
(`penalty_enforcer.cpp:67`), the comment above it speaks of about 13 ticks.

## Model

| member | source | states |
|---|---|---|
| MpscProtocol.NoFault | src/concurrency/mpsc_queue.h:34-50 | no step of a push or pop touches a node that was freed or moves data that is not there |
| MpscProtocol.StepKeeps | src/concurrency/mpsc_queue.h:34-50 | every step of any producer or of the consumer keeps the whole invariant: chain from head to tail, data, links broken exactly at paused producers, ownership, allocation counts, producer order |
| MpscProtocol.StepKeepsLink | src/concurrency/mpsc_queue.h:36-37 | a node points to its successor exactly when the producer of the successor is not between exchange and link |
| MpscProtocol.StepKeepsNoLeak | src/concurrency/mpsc_queue.h:34-50 | every live node is on the chain, in the hands of a producer, or about to be freed |
| MpscQueue.EveryScheduleIsSafe | src/concurrency/mpsc_queue.h:18-50 | in no interleaving, for any number of producers and any reuse of freed addresses, does a step fault; the invariant always holds |
| MpscQueue.EveryAllocationFreedOnce | src/concurrency/mpsc_queue.h:35-48 | each address was handed out as often as it was freed, plus once if it is live: nothing is freed twice or leaked |
| MpscQueue.FreedNodeIsUnneeded | src/concurrency/mpsc_queue.h:46-48 | the node about to be freed is not head, not tail, not the node or predecessor of any producer still inside push |
| MpscQueue.PoppedIsPrefix | src/concurrency/mpsc_queue.h:34-50 | popped values are the first exchanged ones; per producer they are a prefix of what it pushed, in its order |
| MpscQueue.StepRefinesFifo | src/concurrency/mpsc_queue.h:34-50 | each step is one step of an unbounded FIFO: the exchange enqueues, taking dequeues the front, all others change nothing |
| MpscQueue.PopFindsNothingIff | src/concurrency/mpsc_queue.h:41-54 | pop and empty see nothing exactly when all exchanged items were popped or the producer of the first item left is paused; never the latter without paused producers |
| MpscQueue.OnlyTheHeadIsLeft | src/concurrency/mpsc_queue.h:24-28 | drained and with no push in progress, exactly the head node is live and everything else was freed |
| MpscQueue.MpscQueue.constructor | src/concurrency/mpsc_queue.h:18-22 | an empty queue with one sentinel |
| MpscQueue.MpscQueue.NewNode | src/concurrency/mpsc_queue.h:35 | allocating enqueues nothing yet |
| MpscQueue.MpscQueue.ExchangeTail | src/concurrency/mpsc_queue.h:36 | the item enters the queue and its producer is paused |
| MpscQueue.MpscQueue.LinkNode | src/concurrency/mpsc_queue.h:37 | the producer is done; contents unchanged |
| MpscQueue.MpscQueue.Push | src/concurrency/mpsc_queue.h:34-38 | appends the value, also while other producers are paused |
| MpscQueue.MpscQueue.Pop | src/concurrency/mpsc_queue.h:41-50 | takes the front item, or finds nothing exactly when empty or stopped by a paused producer, changing nothing |
| MpscQueue.MpscQueue.Empty | src/concurrency/mpsc_queue.h:52-54 | true exactly when a pop would find nothing |
| MpscQueue.MpscQueue.Drain | src/concurrency/mpsc_queue.h:26 | the destructor's loop ends and has popped everything in order |
| MpscQueue.MpscQueue.Destroy | src/concurrency/mpsc_queue.h:24-28 | no node is left and every allocation was freed, once each |
| BitMask.MaskIsMod | src/concurrency/spsc_queue.h:32 | masking with 2^k - 1 is reduction modulo 2^k, for the bitwise and computed bit by bit |
| BitMask.StaticAssertIff | src/concurrency/spsc_queue.h:28-30 | the static assertion accepts exactly the powers of two, for every 64-bit capacity |
| BitMask.MaskedDifference | src/concurrency/spsc_queue.h:61 | the masked, wrapping 64-bit difference is the difference modulo the capacity |
| SpscProtocol.FullTest | src/concurrency/spsc_queue.h:67-73 | the next index equals the cached head exactly when the producer's view holds capacity - 1 items |
| SpscProtocol.EmptyTest | src/concurrency/spsc_queue.h:95-101 | the head equals the cached tail exactly when the consumer's view is empty |
| SpscProtocol.StepKeeps | src/concurrency/spsc_queue.h:65-106 | every step of either side keeps headSeen <= popped <= tailSeen <= sent, the room of the stale view, the indices, and every unread item in its slot |
| SpscQueue.EveryScheduleIsSafe | src/concurrency/spsc_queue.h:65-106 | for every capacity, interleaving and stale refresh no step leaves the buffer or reads a slot never written |
| SpscQueue.WriterAndReaderApart | src/concurrency/spsc_queue.h:76-103 | the slot being written is not the slot being read and holds no unread item |
| SpscQueue.ReaderSeesPublished | src/concurrency/spsc_queue.h:98-103 | the slot being read holds the oldest published item |
| SpscQueue.StepRefinesBoundedFifo | src/concurrency/spsc_queue.h:65-106 | each step is one of a FIFO bounded by capacity - 1: publishing enqueues within the bound, advancing dequeues the front, all others change nothing |
| SpscQueue.CachesAdmitNoWrongSuccess | src/concurrency/spsc_queue.h:71-103 | a producer past its test has room and a consumer past its test has an item, however stale the caches |
| SpscQueue.PushRefusedIff | src/concurrency/spsc_queue.h:71-74 | a push is refused exactly when the queue was full as of the loaded head; now full, if the load is up to date |
| SpscQueue.PopRefusedIff | src/concurrency/spsc_queue.h:98-101 | a pop is refused exactly when the queue was empty as of the loaded tail; now empty, if the load is up to date |
| SpscQueue.SizeOfTwoLoads | src/concurrency/spsc_queue.h:58-62 | below the capacity whatever happens between the two loads, and right exactly when the consumer did not overtake the loaded tail |
| SpscQueue.SizeIsExact | src/concurrency/spsc_queue.h:58-62 | with both loads in one state, the number of stored items |
| SpscQueue.SpscQueue.constructor | src/concurrency/spsc_queue.h:28-49 | an empty ring for every capacity the static assertions accept |
| SpscQueue.SpscQueue.Push | src/concurrency/spsc_queue.h:65-79 | succeeds exactly when fewer than capacity - 1 items are stored, and then appends, wherever the consumer stands |
| SpscQueue.SpscQueue.HasRoom | src/concurrency/spsc_queue.h:66-74 | the cached test and the refresh together decide exactly whether there is room |
| SpscQueue.SpscQueue.RefreshHead | src/concurrency/spsc_queue.h:72-73 | after the refresh the cache says full exactly when the ring is full |
| SpscQueue.SpscQueue.WriteSlot | src/concurrency/spsc_queue.h:76 | the write changes no stored item |
| SpscQueue.SpscQueue.Publish | src/concurrency/spsc_queue.h:77 | the item becomes the last of the contents |
| SpscQueue.SpscQueue.Pop | src/concurrency/spsc_queue.h:94-106 | succeeds exactly when an item is stored, and then removes the front, wherever the producer stands |
| SpscQueue.SpscQueue.HasItem | src/concurrency/spsc_queue.h:95-101 | the cached test and the refresh together decide exactly whether there is an item |
| SpscQueue.SpscQueue.SizeApprox | src/concurrency/spsc_queue.h:58-62 | tail, any calls of the two sides, head: below the capacity, and right exactly when the consumer did not overtake the loaded tail; undisturbed the number of stored items |
| SpscQueue.SpscQueue.Empty | src/concurrency/spsc_queue.h:53-56 | head, any calls of the two sides, tail: true exactly for a whole number of turns between the two; undisturbed exactly when nothing is stored |
| SpscRuns.PushRun | src/concurrency/spsc_queue.h:65-79 | wherever the consumer stands, a push that has room runs to its end on its own |
| SpscRuns.PopRun | src/concurrency/spsc_queue.h:94-106 | wherever the producer stands, a pop that has an item runs to its end on its own |
| SpscRuns.SizeAfterOvertaking | src/concurrency/spsc_queue.h:58-62 | from every empty idle ring a run after which size_approx reports capacity - 1 of an empty ring |
| SpscRuns.EmptyOfTwoLoads | src/concurrency/spsc_queue.h:53-56 | with any steps of both sides between the two loads, true exactly for a whole number of turns |
| SpscRuns.EmptyForTheProducer | src/concurrency/spsc_queue.h:53-56 | exact as of its first load when the producer asks |
| SpscRuns.EmptyForTheConsumer | src/concurrency/spsc_queue.h:53-56 | exact as of its second load when the consumer asks |
| SpscRuns.EmptyMisleadsAThird | src/concurrency/spsc_queue.h:53-56 | a run in which a third thread is told empty although the ring never is |
| SpscRuns.TwoOfFour | src/concurrency/spsc_queue.h:65-79 | such a start is reached with four slots and two pushes |
| PoolProtocol.StepKeeps | src/concurrency/thread_pool.cpp:10-42 | every locked region, notification, spurious wakeup, task end and join keeps the invariant: FIFO, each task with one worker, wakeups, exits |
| ThreadPool.PoolHasItsWorkers | src/concurrency/thread_pool.cpp:3-8 | a new pool of n threads has n workers, and has them in every run |
| ThreadPool.WorkerTakesTheFirstOrRests | src/concurrency/thread_pool.cpp:25-38 | under the mutex a worker takes the first task exactly when one is queued, sleeps exactly when none is in an open pool, and exits exactly when none is in a stopped one; no other worker is affected |
| ThreadPool.NoLostWakeup | src/concurrency/thread_pool.h:62-71 | with a worker and a queued task there is a pending notification or an awake worker |
| ThreadPool.EveryQueuedTaskHasItsWakeup | src/concurrency/thread_pool.h:62-71 | while anyone sleeps, queued tasks are at most pending notifications plus workers on the way to the mutex |
| ThreadPool.StopReachesSleepers | src/concurrency/thread_pool.cpp:11-15 | once stopped, the notification to all is pending or nobody sleeps |
| ThreadPool.TasksRunOnceInOrder | src/concurrency/thread_pool.cpp:36-40 | tasks start in the order accepted; a running task is with one worker only and not completed; accepted = queued + running + completed |
| ThreadPool.NothingAcceptedAfterStop | src/concurrency/thread_pool.h:64-66 | in no run does a stopped pool accept anything, and what completed stays completed |
| ThreadPool.StepMakesProgress | src/concurrency/thread_pool.cpp:10-42 | once stopped every step lowers a measure over queued tasks and worker phases, except submissions, which change nothing |
| ThreadPool.ShutdownIsBounded | src/concurrency/thread_pool.cpp:10-42 | no run goes on for ever after the stop |
| ThreadPool.ShutdownIsNeverStuck | src/concurrency/thread_pool.cpp:10-42 | until all workers are joined some step is enabled |
| ThreadPool.JoinedMeansAllCompleted | src/concurrency/thread_pool.cpp:10-42 | after the joins all workers exited, and all accepted tasks completed if and only if there is a worker or nothing was accepted |
| ThreadPool.ZeroWorkersDropTask | src/concurrency/thread_pool.cpp:3-19 | a pool of zero threads can accept a task and drop it |
| ThreadPool.ThreadPool.constructor | src/concurrency/thread_pool.cpp:3-8 | an open pool of exactly as many workers as asked for, all on their way to the mutex, with nothing queued, accepted or completed |
| ThreadPool.ThreadPool.Submit | src/concurrency/thread_pool.h:62-72 | refused exactly when stopped; otherwise appends and wakes one sleeper if there is one |
| ThreadPool.ThreadPool.LockRegion | src/concurrency/thread_pool.cpp:25-38 | takes the first task if there is one; with none exits from a stopped pool and sleeps in an open one |
| ThreadPool.ThreadPool.RunTask | src/concurrency/thread_pool.cpp:40 | the worker's own task completes, for the first time, and the worker goes back to the mutex |
| ThreadPool.ThreadPool.JoinWorker | src/concurrency/thread_pool.cpp:16-18 | joining one worker terminates and forgets no completed task, in whatever order the workers go on meanwhile |
| ThreadPool.IdleMeansCompleted | src/concurrency/thread_pool.cpp:21-41 | with nothing queued and nobody working everything accepted has completed |
| ThreadPool.ThreadPool.Settle | src/concurrency/thread_pool.cpp:21-41 | the workers of an open pool left to work come to an end with everything accepted completed |
| ThreadPool.ThreadPool.Destroy | src/concurrency/thread_pool.cpp:10-19 | in whatever order the workers go on meanwhile, terminates with all workers exited and, given a worker, all accepted tasks completed |
| SingleFlight.StepKeeps | src/main.cpp:91-109 | every step of callback and pool keeps: each outstanding task is the one its system's future stands for |
| SingleFlight.OneJobPerSystem | src/main.cpp:91-109 | two jobs that are queued or running at the same time are of different systems |
| SingleFlight.NoSystemEnteredTwice | src/main.cpp:91-109 | two workers never run jobs of the same system at once |
| SingleFlight.AtMostTwoJobs | src/main.cpp:66-109 | queued and running jobs together never exceed two |
| SingleFlight.PoolIsReachable | src/main.cpp:91-109 | whatever the callback does, the pool stays in states it reaches on its own, so all its theorems apply |
| SingleFlight.NoJobOutlivesThePool | src/main.cpp:66-72 | once the pool has joined its workers no job is queued or running, so none touches a system destroyed after it |
| SingleFlight.SubmissionsAreAccepted | src/main.cpp:91-109 | no submission of the callback meets a stopped pool; track limits only on ninth ticks |
| DueJobs.EachStepOfATick | src/main.cpp:91-109 | a tick looks at track limits exactly when it is a ninth one and always at weather; a look submits exactly when the previous future is unset or ready; a submission adds that job and no other |
| DueJobs.JobsOfManyTicks | src/main.cpp:91-109 | in every run in which each tick finds the earlier jobs completed, n ticks submit exactly n / 9 track-limits jobs and n weather jobs |
| DueJobs.TwoWorkers | src/main.cpp:72 | the pool of two has two workers in every run |
| DueJobs.ManyTicks | src/main.cpp:72-109 | some run of the pool of two goes through any number of ticks, completing every job |
| DueJobs.BothJobsCanRunAtOnce | src/main.cpp:66-109 | on every ninth tick the two workers can be inside the two systems at the same time |
| FastestLap.StepKeeps | src/common/race_state.h:91-107 | every load, test, swap and store of any claimant keeps the invariant |
| FastestLap.WinsLowerTheTime | src/common/race_state.h:94-101 | a win lowers the time strictly; nothing else changes it |
| FastestLap.TimeIsTheMinimum | src/common/race_state.h:91-107 | when all claims have returned the time is the minimum of the initial and all submitted times |
| FastestLap.EqualTimesHaveOneWinner | src/common/race_state.h:91-107 | a claim returns true exactly when its swap succeeded, and of equal times at most one does |
| FastestLap.HolderIsAWinner | src/common/race_state.h:98-102 | the final holder is the driver of some winning claim, or unset if none won |
| FastestLap.LossesAreOthersWins | src/common/race_state.h:93-105 | non-spurious failures of a claim are at most the other claims' wins during it |
| FastestLap.HolderCanDisagree | src/common/race_state.h:94-101 | a schedule of two overlapping claims that ends with the slower driver as holder of the faster time |
| FastestLap.OneClaimantHoldsTheTime | src/common/race_state.h:91-107 | the wired case: with one claim at a time the holder set the final time, whatever is claimed |
| HolderAgreement.AlwaysAgreesIff | src/common/race_state.h:91-107 | for any submitted claims: all interleavings end with holder and time of one claim if and only if no claim below the initial time is slower than the fastest and of a driver without a fastest claim |
| HolderAgreement.Overtaking | src/common/race_state.h:94-101 | for any claims with such a pair, a finished interleaving in which holder and time part |
| HolderAgreement.PartedMeansOvertaken | src/common/race_state.h:91-107 | any finished interleaving in which they part shows such a pair |
| FastestLap.RaceState.CompareExchangeWeak | src/common/race_state.h:94-97 | swaps exactly when the value is the expected one and there is no spurious failure; reports the value seen |
| FastestLap.RivalsLeaveTheMinimum | src/common/race_state.h:91-107 | rivals leave the smallest of the time before them and their own, with the first driver to reach it |
| FastestLap.RaceState.TryClaimFastestLap | src/common/race_state.h:91-107 | against any rival claims and spurious failures it wins exactly when it beats the time they leave; rivals between its swap and its store of the holder can lower the time further, the holder is then still its driver; a losing claim changes nothing |
| Roster.IndexOf | src/common/season_data.h:67-72 | the first position of the id, or -1 exactly when it is not on the roster |
| Roster.DriverIndex | src/common/season_data.h:67-72 | the loop finds that position |
| LapPipeline.ClaimAllIsRecord | src/simulation/lap_time_consumer.cpp:22-26 | claiming frame by frame ends with the minimum positive time of a known driver below the initial one, held by the first to reach it |
| LapPipeline.StepKeeps | src/simulation/lap_time_consumer.cpp:18-43 | every step of ring, consumer and shutdown keeps: handled = popped, no push after the generator is joined, exit only on an empty ring |
| LapPipeline.ExitedMeansRecordOfAll | src/main.cpp:175-177 | in every run in which the consumer has exited, all accepted frames were handled once in order, and the fastest lap is that of all of them |
| LapPipeline.RecordFollowsFrames | src/simulation/lap_time_consumer.cpp:18-43 | at every moment the fastest lap is that of the frames handled so far, which are the first accepted ones |
| PipelineRuns.EveryFrameCanArrive | src/simulation/lap_time_consumer.cpp:18-43 | for any frames some run accepts exactly these and ends with the consumer exited |
| LapPipeline.LapTimeConsumer.Handle | src/simulation/lap_time_consumer.cpp:22-27 | claims exactly for a positive time of a known driver |
| LapPipeline.LapTimeConsumer.Round | src/simulation/lap_time_consumer.cpp:21-30 | pops and handles the oldest frame, or finds the ring empty |
| LapPipeline.LapTimeConsumer.ArriveAll | src/simulation/telemetry_generator.cpp:150-153 | pushes between two polls are accepted up to a full ring and dropped from there |
| LapPipeline.LapTimeConsumer.Run | src/simulation/lap_time_consumer.cpp:18-43 | however late the stop is seen and whatever the generator pushes between the polls, the two loops leave the ring empty and have popped and claimed for everything that was in it or accepted, once and in order |
| Records.BestIsMinimumIff | src/simulation/telemetry_generator.cpp:129-131 | a driver's recorded best is the minimum of the driver's laps if and only if that is at least 1 ms or the latest lap |
| Records.RaceNotBelowBoard | src/common/leaderboard.h:82-93 | with laps of at least 1 ms the race state's holder has a best lap at most the race state's time, whatever the ring dropped |
| Records.RecordsAgreeIff | src/common/leaderboard.h:82-93 | with no lap dropped, the exact condition under which the two records agree |
| Records.RaceNeverBelowBoardIff | src/common/leaderboard.h:82-93 | over all sets of dropped frames, the exact condition under which the race state is never below the leaderboard |
| RaceResult.RaceStateNeverBelowStandings | src/simulation/telemetry_generator.cpp:122-153 | cars, ring and consumer together: after the drain the race state's time is not below a best lap of its holder on the standings |
| RaceResult.RecordsAgreeAfterTheRace | src/simulation/lap_time_consumer.cpp:35-42 | cars, ring and consumer together: with no lap dropped the exact condition for agreement, and from 1 ms on the holder's best lap is the time |
| RaceResult.LeaderboardFindsTheRecord | src/common/leaderboard.h:82-93 | the scan of the published standings returns a driver whose best lap is the race state's time |
| RaceResult.NothingNeedBeDropped | src/main.cpp:175-177 | every race can finish with every frame accepted |
| RaceResult.ShortLapIsForgotten | src/simulation/telemetry_generator.cpp:129-131 | for every ring a race and a run without a dropped frame after which the standings show 5 ms and the race state 0.5 ms |
| Ranking.StableSort | src/simulation/telemetry_generator.cpp:200-209 | indices by greater distance first, equal distances in index order |
| Ranking.PlaceCounts | src/simulation/telemetry_generator.cpp:203-209 | a driver's place is the number of drivers further plus the number level with a lower index |
| Ranking.PositionMeans | src/simulation/telemetry_generator.cpp:211-238 | position = 1 + further + level with lower index; gaps are not negative; the leader has gap 0 and no DRS |
| Ranking.GapMeans | src/simulation/telemetry_generator.cpp:216-228 | a gap times the mean speed, at least 1, is 3600 times the kilometres to the leader |
| Ranking.DrsMeans | src/simulation/telemetry_generator.cpp:231-237 | a car has DRS if and only if it is less than a second behind the car directly ahead; the leader has none |
| Ranking.OnlyRankChanges | src/simulation/telemetry_generator.cpp:211-238 | every other field of a car is as before |
| Ranking.PositionsArePermutation | src/simulation/telemetry_generator.cpp:211-214 | positions are a permutation of 1..n |
| Ranking.ResortIsUnique | src/main.cpp:81-86 | the unstable sort by position has one result, entry k being the driver at position k + 1 |
| Leaderboard.Leaderboard.Update | src/common/leaderboard.h:47-56 | the first thread owns the board and replaces the standings; any other is refused and changes nothing |
| Leaderboard.Leaderboard.AtPosition | src/common/leaderboard.h:73-79 | the first entry with the position, or a default state exactly when there is none |
| Leaderboard.Leaderboard.FastestLapHolder | src/common/leaderboard.h:82-93 | the driver of the first entry with the smallest positive best lap, or empty when there is none |
| Leaderboard.PublishedPosition | src/common/leaderboard.h:73-79 | on published standings position k + 1 is entry k and nothing else |
| TickCallback.SortByPosition | src/main.cpp:82-85 | a rearrangement of the states in order of position |
| TickCallback.TickCallback.SubmitWhenIdle | src/main.cpp:92-109 | submits exactly when the previous job is done, keeping at most one outstanding job per system; fails only on a stopped pool |
| TickCallback.TickCallback.SubmitJobs | src/main.cpp:91-109 | a tick adds track limits if and only if it is a ninth one and the previous one is done, weather if and only if the previous one is done, each once at most, track limits first, nothing else |
| TickCallback.TickCallback.Publish | src/main.cpp:81-86 | the published standings are a rearrangement of the states in order of position |
| TickCallback.TickCallback.OnTick | src/main.cpp:80-112 | the whole callback: standings published, lap set, exactly the due jobs submitted, waiting events handled and announcements left queued |
| TickCallback.CountsAfterTick | src/main.cpp:91-109 | a tick that finds both jobs done takes n / 9 and n submissions to (n + 1) / 9 and n + 1 |
| TickCallback.TickCallback.TickAndSettle | src/main.cpp:80-112 | a callback and the workers after it leave both jobs done and the counts right |
| TickCallback.TickCallback.ManyTicks | src/main.cpp:80-112 | n callbacks, each finding the earlier jobs done, submit n / 9 track-limits jobs and n weather jobs |
| RaceTick.AllPublished | src/main.cpp:80-86 | ranked and sorted by position, entry k of the standings is the driver ranked at place k, at position k + 1 |
| RaceTick.RaceTick.RunCallback | src/main.cpp:80-112 | the callback on ranked cars publishes entry k as the driver ranked at place k, and the race lap |
| RaceTick.RaceTick.Tick | src/simulation/telemetry_generator.cpp:63-160 | a tick and its callback: the cars are moved and ranked, and the standings and the lap published are theirs |
| Simulation.Speed | src/simulation/telemetry_generator.cpp:83-90 | between 80 and 370 whatever the draw |
| Simulation.StepConserves | src/simulation/telemetry_generator.cpp:68-153 | a tick adds exactly the distance driven and at most one lap; a frame has a lap time exactly when it completes a lap; the best lap changes only then |
| Simulation.StaysInLapIff | src/simulation/telemetry_generator.cpp:98-118 | a car stays inside its lap for all draws if and only if the lap is at least 37/150 km |
| Simulation.StepStaysInRange | src/simulation/telemetry_generator.cpp:92-115 | fuel, wear, throttle, brake and sector stay in their ranges |
| Simulation.RunConserves | src/simulation/telemetry_generator.cpp:98-119 | over any number of ticks total distance grows by exactly the distance driven |
| Simulation.RunStaysInLap | src/simulation/telemetry_generator.cpp:98-118 | over any number of ticks the distance in the lap stays in [0, length) |
| Simulation.LapsAreMarkedOnce | src/simulation/telemetry_generator.cpp:68-153 | each lap is marked by exactly one offered frame, also through a pit stop |
| Simulation.PitTicksAre | src/simulation/telemetry_generator.cpp:164-193 | a car uses at most 11 pit ticks in all, counted by its pit timer |
| Simulation.DrivenAtLeast | src/simulation/telemetry_generator.cpp:90-99 | every tick outside the pits covers at least 4/75 km |
| Simulation.EveryCarFinishes | src/simulation/telemetry_generator.cpp:117-147 | on the default track every car is past lap 50 after 5063 + 11 ticks, whatever the draws |
| Driving.TopSpeed | src/simulation/telemetry_generator.cpp:83-90 | without draw or DRS an empty car on new tyres runs 280 plus 90 times its engine power |
| Driving.FuelCosts | src/simulation/telemetry_generator.cpp:83-90 | inside the limits each kilogram of fuel costs 0.08 % of the speed of the empty car |
| Driving.WearCosts | src/simulation/telemetry_generator.cpp:84-90 | inside the limits worn-out tyres cost a quarter of the speed and any wear its share |
| Driving.DrsAdds | src/simulation/telemetry_generator.cpp:87-90 | DRS adds 12 km/h up to the limit |
| Driving.DrawMoves | src/simulation/telemetry_generator.cpp:85-90 | a draw moves the speed by 8 km/h per unit and per share of missing consistency |
| Driving.DistanceOfATick | src/simulation/telemetry_generator.cpp:99 | in a tick a car at v km/h drives v / 1500 km |
| Driving.SectorMeans | src/simulation/telemetry_generator.cpp:98-104 | the sector shown is the third of the track the car is in |
| Driving.PedalsMean | src/simulation/telemetry_generator.cpp:92-96 | throttle in proportion up to 310 km/h, brake in proportion below 150 km/h |
| Driving.TickBurnsAndWears | src/simulation/telemetry_generator.cpp:106-115 | a driving tick burns fuel and wears tyres in proportion to the distance, down to empty and up to worn out |
| Driving.LapIsTimed | src/simulation/telemetry_generator.cpp:74-128 | a completed lap is timed from the completion of the one before; no other tick has a time |
| Driving.LapTimesAddUp | src/simulation/telemetry_generator.cpp:121-128 | over any run the lap times add up to the time from the start to the last completed lap |
| Driving.PitsIff | src/simulation/telemetry_generator.cpp:133-193 | a car pits if and only if it completes a lap, is on lap 5 or later, has not stopped and its tyres are worn to the threshold; the timer is then 11 |
| Driving.StopTakesElevenTicks | src/simulation/telemetry_generator.cpp:164-182 | a stop takes exactly 11 ticks without moving and ends with tyres at 0.02, a full tank and one stop more |
| Driving.OneStop | src/simulation/telemetry_generator.cpp:164-193 | over any run a car stops at most once |
| RaceBooks.StepKeepsBooks | src/simulation/telemetry_generator.cpp:117-153 | moving one car keeps every car's lap and best lap equal to what its offered frames say, and the race lap the greatest lap |
| RaceBooks.EveryRaceKeepsBooks | src/simulation/telemetry_generator.cpp:63-160 | the same in every state of every race, with every offered frame of some car |
| TelemetryGenerator.TakenIsOffered | src/simulation/telemetry_generator.cpp:150-153 | the ring takes only offered frames |
| TelemetryGenerator.AllCarsFinish | src/simulation/telemetry_generator.cpp:63-160 | after 5074 ticks of the generator all cars of the default track are past their last lap |
| TelemetryGenerator.TelemetryGenerator.constructor | src/simulation/telemetry_generator.cpp:9-33 | cars 10 m apart in roster order, on their first lap with full tanks and new tyres |
| TelemetryGenerator.TelemetryGenerator.HandlePit | src/simulation/telemetry_generator.cpp:164-182 | the countdown, and on its end tyres, fuel and the stop counted |
| TelemetryGenerator.TelemetryGenerator.DriveCar | src/simulation/telemetry_generator.cpp:74-148 | the loop body for a car that drives is one step of that car; race lap and finish follow |
| TelemetryGenerator.TelemetryGenerator.Offer | src/simulation/telemetry_generator.cpp:70-153 | the ring takes a pushed frame exactly when it is not full |
| TelemetryGenerator.TelemetryGenerator.MoveCar | src/simulation/telemetry_generator.cpp:64-153 | exactly one car steps, its frame is offered, and the ring takes that frame exactly when it is not full |
| TelemetryGenerator.TelemetryGenerator.Tick | src/simulation/telemetry_generator.cpp:63-157 | all cars step, one frame each is offered in order and the ring takes the first min(n, room) of them; the cars are ranked, and the race is finished exactly when a car that was first passes lap 50 |
| TelemetryGenerator.KeepingUpDropsNothing | src/simulation/telemetry_generator.cpp:54-153 | if the consumer pops at least as often between ticks as there are cars, and one frame of each fits, no frame is ever dropped |
| TelemetryGenerator.TelemetryGenerator.Run | src/simulation/telemetry_generator.cpp:54-59 | stops early only on a finished race; each car is what its own inputs make of it; with any pops of the consumer between ticks the ring takes of each tick exactly what it has room for; 5074 ticks finish every car |
| TelemetryGenerator.TelemetryGenerator.UpdatePositionsAndDrs | src/simulation/telemetry_generator.cpp:197-238 | the states are ranked and nothing but positions, gaps and DRS flags changes |
| PenaltyProtocol.StepKeeps | src/race_control/penalty_enforcer.cpp:39-94 | every atomic access of the processing thread and every pit call between them keeps the invariant of each driver |
| PenaltyProtocol.PenaltiesMoveOneStage | src/race_control/penalty_enforcer.cpp:51-94 | penalties move NONE, PENDING, SERVING, SERVED one stage at a time, each by its own event |
| PenaltyProtocol.PitCallsAdvance | src/race_control/penalty_enforcer.cpp:74-94 | entering turns PENDING into SERVING, leaving turns SERVING into SERVED, and neither changes anything else |
| PenaltyProtocol.PenaltiesNeverGoBack | src/race_control/penalty_enforcer.cpp:51-94 | over any run a penalty never goes back |
| PenaltyStages.StageIff | src/race_control/penalty_enforcer.cpp:51-94 | after any run: issued if and only if a compare-and-swap for the driver succeeded, being served or served if and only if the driver entered the pits after that, served if and only if the driver left them after that |
| PenaltyProtocol.PenalisedIffThreeWarnings | src/race_control/penalty_enforcer.cpp:45-68 | between events a driver is penalised, announced once and given extra pit time exactly when at least three warnings were counted |
| PenaltyProtocol.CasSucceedsIffThird | src/race_control/penalty_enforcer.cpp:47-56 | the compare-and-swap succeeds exactly at the third warning, also after the 32-bit counter has wrapped |
| PenaltyProtocol.CounterIsExactIff | src/race_control/penalty_enforcer.cpp:45-105 | the counter shows the number of warnings if and only if that is below 2^31 |
| PenaltyBatches.HandleIsARun | src/race_control/penalty_enforcer.cpp:40-69 | handling one event is a run of the atomic accesses, with the same book, count and announcement |
| PenaltyBatches.HandleAllIsARun | src/race_control/penalty_enforcer.cpp:39-71 | handling any events from the blank book is a run of the atomic accesses that counts each driver's track-limits events |
| PenaltyBatches.PenalisedFromTheThird | src/race_control/penalty_enforcer.cpp:45-68 | for each driver: penalised, announced once and given 3 of extra time if and only if at least three of the driver's track-limits events were handled |
| PenaltyBatches.HandleAllIsOfTrack | src/race_control/penalty_enforcer.cpp:39-40 | only track-limits events matter |
| PenaltyBatches.HandleAllAppend | src/race_control/penalty_enforcer.cpp:39-71 | handling a batch in two parts ends like handling it whole |
| PenaltyBatches.HandleSame | src/race_control/penalty_enforcer.cpp:45-68 | handling does not depend on how far penalties have been served |
| PenaltyBatches.PitMeans | src/race_control/penalty_enforcer.cpp:74-94 | what a pit call does to each driver: the named one advances from the right stage, nobody else changes |
| PenaltyBatches.ActKeeps | src/race_control/penalty_enforcer.cpp:25-94 | every push and pit call of another thread, pop, handled event and announcement that re-enters the queue keeps: counts, announcements and who is penalised are those of the events handled so far |
| PenaltyBatches.BatchesDoNotMatter | src/race_control/penalty_enforcer.cpp:25-94 | however the stream is cut into calls and whatever others push or call in between, once no track-limits event waits all but how far penalties are served is that of handling it in one go; without pit calls everything is |
| PenaltyBatches.SameTrackEventsEndAlike | src/race_control/penalty_enforcer.cpp:25-94 | two ways of cutting and mixing the same track-limits events end alike |
| PenaltyBatches.EveryStreamPenalisesOnce | src/race_control/penalty_enforcer.cpp:25-94 | in every such stream a driver is penalised and announced once if and only if at least three of the driver's track-limits events were pushed |
| PenaltyEnforcer.PenaltyEnforcer.constructor | src/race_control/penalty_enforcer.cpp:9-16 | no warnings, no penalties, no extra time |
| PenaltyEnforcer.PenaltyEnforcer.TakeBatch | src/race_control/penalty_enforcer.cpp:35-37 | the batch is the front of the queue, up to its end or to a paused producer |
| PenaltyEnforcer.PenaltyEnforcer.ProcessEvents | src/race_control/penalty_enforcer.cpp:25-72 | handles what was queued before the call, counting each driver's track-limits events, and leaves exactly its own announcements behind what was left; with no paused producer it takes everything |
| PenaltyEnforcer.PenaltyEnforcer.DriverEnteredPits | src/race_control/penalty_enforcer.cpp:74-83 | a pending penalty of the driver becomes SERVING; every other penalty and everything else stays |
| PenaltyEnforcer.PenaltyEnforcer.DriverExitedPits | src/race_control/penalty_enforcer.cpp:85-94 | a penalty of the driver that is being served becomes SERVED; every other penalty and everything else stays |
| PenaltyEnforcer.PenaltyEnforcer.PenaltyState | src/race_control/penalty_enforcer.cpp:96-100 | the driver's penalty, NONE for an unknown driver; another value exactly after three counted warnings |
| PenaltyEnforcer.PenaltyEnforcer.WarningCount | src/race_control/penalty_enforcer.cpp:102-106 | the driver's counter, 0 for an unknown driver; the counted warnings exactly below 2^31 |

## Left out

- FastestLap.OneClaimantHoldsTheTime: a sufficient condition, on the run, for the program's one consumer thread; the exact condition on arbitrary claims is HolderAgreement.AlwaysAgreesIff.
- FastestLap.RaceState.TryClaimFastestLap: a rival's claim happens all at once; rivals stopped between their own swap and store are in the step model.
- PenaltyEnforcer.PenaltyEnforcer.ProcessEvents: no push or pit call of another thread between its steps; those are in PenaltyBatches, and pit calls between single accesses in PenaltyProtocol.
- PenaltyBatches.BatchesDoNotMatter: with pit calls it does not say how far a penalty is served, since that depends on when they come.
- TelemetryGenerator.TelemetryGenerator.Run: not that the race finishes, because the code tests the position of the tick before; the lap of every car is proved instead.
- ThreadPool.ShutdownIsNeverStuck: tasks are assumed to terminate.
- Weak memory orders: atomic accesses interleave; only the ring's refreshes may lag behind, and the consumer's loads are up to date once it has seen the stop request.
- Floating-point rounding, NaN and infinities; lap times are below the initial fastest time where the two records are compared.
- Interference inside a class method beyond what it takes as a parameter; the step models carry all interleavings.
- Signed overflow in adding 1 to the largest warning count is taken to wrap like the counter itself.
- The generator's atomics `race_lap_` and `race_finished_` as seen by other threads; the main thread's display loop and its 60-second limit.
- `packaged_task` and `future` internals, argument forwarding and exceptions from tasks: a future is ready exactly when its task has completed.
- `shared_mutex` and condition-variable queues: a locked region is one step, and a notification wakes any one sleeper.
- `TrackLimitsMonitor` and `WeatherSystem`: random coins and a three-way cycle, represented by the jobs that run them.
- Driver and team names, sector count, event messages and timestamps, console output, benchmarks and build files.
- The exception of `car_for_driver`: a driver's profile carries the engine power of its car.
