# TortoiseGit: job scheduler and Git status core

A Dafny model of the concurrent job scheduler of TortoiseGit's `AsyncFramework` and of the
algorithms in its `Git` folder whose results are hardest to see from the code, with proofs of
what they guarantee. `dafny verify dfyconfig.toml` checks everything.

**The job scheduler** is modelled twice. `JobQueue` and `JobScheduler` are the objects: a queue
in one buffer that is compacted or doubled in place, a pool that lends threads, and a scheduler
whose methods update counters and lists. `SchedulerModel`, `SharedPool` and `SchedulerWorld`
are a transition system of any number of schedulers that share one pool; a step is one stretch
of a mutex section up to its next access to the pool, so that a thread on its way from a
scheduler to the pool and a notification on its way to another scheduler are visible states.
`SchedulerSteps` and `SchedulerRuns` prove that every step keeps the invariants,
`SchedulerTheorems` what follows for every run, `SchedulerDemand` when threads are taken on. Sharing threads can go wrong in three ways:
notifying a starving scheduler can deadlock, the notification can be wasted so that its work is
abandoned, and a worker can be made to wait for its own end. `SchedulerCapacity` proves what each
takes, `SchedulerReach` puts runs together that get there from any setup, and `SchedulerExact`
and `SchedulerNotice` state when it can happen, in terms of how the schedulers and the pool were
set up. `SchedulerLimits` has concrete runs and what becomes of them. The methods of the objects
are proved to be runs of the transition system.

**A job** (`JobLife`), **the one-shot event** (`OneShotEvent`) and **the worker thread**
(`WorkerThread`) are transition systems whose steps are single accesses to a flag, an event or
a handle, in any interleaving of any number of callers.

**The HEAD cache** (`HeadCache`, `PackedRefs`) reads files that others may change at any moment;
files are a history that gives the version at each moment, and every look has its own moment.

**The folder status** (`FolderStatus`, `SortVector`) is the early-exit computation over sorted
vectors, proved equal to its plain definition.

**Smaller cores**: packing paths into command lines (`CommandPacking`), the environment block
edited in place (`EnvBlock`), splitting output into lines (`LineSplitter`), the log parser with
its index of duplicates (`LogRecords`, `LogParser`, `LogListing`), and abbreviated renames
(`RenameAbbrev`).

## Where the code differs from its comments

The model follows the code.

- Raising the size of the pool adds `allocCount` where the bound needs it subtracted
  (src/AsyncFramework/JobScheduler.cpp:171 against JobScheduler.h:229-231); `SharedPool.SetCountExact`
  says when that is harmless. Runs may change the size in any way; the bound is kept in those that
  do so safely (`SchedulerTheorems.BalanceIsExact`), and the rest in all of them.
- A pool over its size is documented to remove surplus threads (JobScheduler.h:231-234); the worker
  that returns such a thread deletes its own thread object and waits for itself
  (JobScheduler.cpp:144-150, Thread.cpp:75-100); `SchedulerExact.EndingIsExact`.
- The loop of ThreadAvailable asks for a stopped scheduler (JobScheduler.cpp:489), so a notified
  scheduler gains no thread while it runs, and nobody notifies it again: `SchedulerLimits.NotifiedButStranded`
  is a run, `SchedulerNotice.HearingIsExact` says which steps do it, and
  `SchedulerNotice.AbandoningIsExact` when it can happen.
- `oldest` in RemoveJobFromQueue means the end that is executed next, which has the oldest jobs
  under FIFO only (JobScheduler.cpp:608-616); `SchedulerLimits.RemovedEnd`.
- The documented sum for `unusedCount` leaves out `yetToCreate` (JobScheduler.h:368);
  `SchedulerTheorems.CountersAgree` has the one that holds.
- The condition on an empty repository at the end of CheckHeadUpdate (GitIndex.cpp:605-608) never
  decides anything for a branch that does not exist; the one before it does
  (`HeadCache.UnbornIsRechecked`).
- A folder that is looked at without recursion still compares the index and HEAD in full depth
  (GitStatus.cpp:638-683); only the file loop skips subfolders.

## Model

| member | source | states |
|---|---|---|
| JobQueue.CQueue.constructor | src/AsyncFramework/JobScheduler.h:149-157 | a new queue is empty, FIFO, and has room for 1024 entries |
| JobQueue.CQueue.Grow | src/AsyncFramework/JobScheduler.cpp:31-44 | the entries move unchanged to the start of a larger buffer |
| JobQueue.CQueue.AutoGrow | src/AsyncFramework/JobScheduler.cpp:46-60 | a buffer that is at most half full is compacted, any other one doubled; the content stays the same and afterwards at most half of the buffer is used |
| JobQueue.CQueue.Push | src/AsyncFramework/JobScheduler.h:165-170 | appends to the deque; the buffer never overflows and its accounting stays within the documented bounds |
| JobQueue.CQueue.Pop | src/AsyncFramework/JobScheduler.h:171-174 | takes the oldest job in FIFO order and the newest one otherwise |
| JobQueue.CQueue.SetFifo | src/AsyncFramework/JobScheduler.h:182-185 | changes only the end that is popped from |
| JobQueue.HandedPlusQueuedIsPushed | src/AsyncFramework/JobScheduler.h:95-113 | over any run of pushes, pops and order changes, what was handed out plus what is queued is exactly what was pushed |
| JobQueue.FifoKeepsOrder | src/AsyncFramework/JobScheduler.h:135-138 | a queue that is never switched to LIFO hands jobs out in the order they came |
| JobQueue.Run | src/AsyncFramework/JobScheduler.h:95-113 | a whole run on a real buffer gives what the deque gives, copies at most two entries per push, and never allocates more than max(1024, 4 x peak size) |
| SchedulerModel.SwapRemoveKeeps | src/AsyncFramework/JobScheduler.cpp:230-231 | overwriting a list entry by the last one removes exactly that thread |
| SchedulerSteps.EnqueueKeeps | src/AsyncFramework/JobScheduler.cpp:460-480 | queueing a job keeps accounting, thread lists, backlog bound, job tally and sleepers |
| SchedulerSteps.WakeKeeps | src/AsyncFramework/JobScheduler.cpp:321-334 | resuming a suspended private thread keeps the whole invariant and moves that thread between the lists |
| SchedulerSteps.JoinKeeps | src/AsyncFramework/JobScheduler.cpp:335-348 | a created or borrowed thread that joins the running list keeps the whole invariant |
| SchedulerSteps.NoThreadKeeps | src/AsyncFramework/JobScheduler.cpp:349-358 | a failed attempt to get a thread keeps the invariant, the bound included, since no private thread was idle |
| SchedulerSteps.StarveKeeps | src/AsyncFramework/JobScheduler.cpp:308-313 | registering as starving keeps the invariant |
| SchedulerSteps.TakeJobKeeps | src/AsyncFramework/JobScheduler.cpp:284-287 | a job that is handed to a worker leaves the queue and is in nobody else's hands |
| SchedulerSteps.GoIdleKeeps | src/AsyncFramework/JobScheduler.cpp:222-276 | a worker that goes idle keeps the invariant on all three ways: to the pool, ended, or suspended |
| SchedulerSteps.GiveDoneKeeps | src/AsyncFramework/JobScheduler.cpp:240-276 | the accounting after a thread has been returned agrees with the lists again |
| SchedulerSteps.FinishJobKeeps | src/AsyncFramework/JobScheduler.cpp:389-402 | a finished job leaves the worker's hands and counts as finished once |
| SchedulerSteps.ResumeKeeps | src/AsyncFramework/JobScheduler.cpp:641-659 | taking back the last Stop keeps the invariant, with the allocation loop about to run |
| SchedulerSteps.TakeOffEnds | src/AsyncFramework/JobScheduler.cpp:618-624 | repeated pops return the jobs of one end, the next one each time, and leave the rest in order |
| SchedulerSteps.RemoveJobsKeeps | src/AsyncFramework/JobScheduler.cpp:595-633 | removing jobs keeps the invariant; every removed job counts as removed once |
| SchedulerSteps.WaitTurnKeeps | src/AsyncFramework/JobScheduler.cpp:509-535 | a turn of the waiting loop, with the drain of a stopped scheduler, keeps the invariant |
| SchedulerRuns.NextKeeps | src/AsyncFramework/JobScheduler.cpp:102-659 | every step of every scheduler, at any point where another one may interfere, keeps the invariants of all schedulers, of the pool, of thread ownership and of starvation |
| SchedulerRuns.ExecKeeps | src/AsyncFramework/JobScheduler.cpp:102-659 | so does every run |
| SchedulerRuns.InitKeeps | src/AsyncFramework/JobScheduler.cpp:413-431 | new schedulers and an unused pool satisfy the invariants |
| SchedulerRuns.AssignKeeps | src/AsyncFramework/JobScheduler.cpp:213-287 | AssignJob keeps them, whether it finds a job or not |
| SchedulerRuns.AllocateKeeps | src/AsyncFramework/JobScheduler.cpp:292-359 | AllocateThread keeps them on every branch |
| SchedulerRuns.UnstarveStep | src/AsyncFramework/JobScheduler.cpp:361-372 | StopStarvation keeps them; a scheduler about to return a thread is not starved |
| SchedulerRuns.GiveStep | src/AsyncFramework/JobScheduler.cpp:129-151 | the booking of a returned thread keeps them |
| SchedulerRuns.SelectStep | src/AsyncFramework/JobScheduler.cpp:65-77 | selecting a starving scheduler keeps them: it is in the hands of one notifier only |
| SchedulerRuns.ServeStep | src/AsyncFramework/JobScheduler.cpp:484-500 | ThreadAvailable keeps them, while the notifier still waits |
| SchedulerRuns.EndingStep | src/AsyncFramework/JobScheduler.cpp:144-150 | so does the branch for a pool over its size, on which the worker that returns its thread waits for its own end |
| SchedulerRuns.SetCountStep | src/AsyncFramework/JobScheduler.cpp:165-181 | any change of the pool size keeps them |
| SchedulerRuns.BalanceKept | src/AsyncFramework/JobScheduler.cpp:102-181 | a step keeps the documented bound of the pool if and only if it is no change of the size, or a safe one |
| SchedulerTheorems.NoStrandedWork | src/AsyncFramework/JobScheduler.cpp:213-287 | for every run: a scheduler with a private thread that is not stopped and has queued jobs has a running thread |
| SchedulerTheorems.BacklogBound | src/AsyncFramework/JobScheduler.cpp:474-479 | for every run: at most four queued jobs per running thread while not stopped, two if never stopped, unless no private thread is idle; without shared threads, unless nothing is unused |
| SchedulerDemand.ThreadsOnDemand | src/AsyncFramework/JobScheduler.cpp:460-659 | for every run: a scheduler has one more thread running only after a step at which it was not stopped and Schedule or Resume asked for it in terms of queue, counters and `aggressive`, or was stopped, notified and had a backlog of more than two jobs per thread |
| SchedulerDemand.ResumeGetsEnough | src/AsyncFramework/JobScheduler.cpp:641-659 | for every run: a Resume that takes back the last Stop ends with a thread for four jobs each, and for one each if aggressive; or with nothing left to start; or waiting for a shared thread |
| SchedulerDemand.ScheduleIsExact | src/AsyncFramework/JobScheduler.cpp:474-479 | Schedule goes on to get a thread exactly if it is not stopped, and aggressive or over two jobs per running thread with a thread unused |
| SchedulerDemand.ScheduleGetsOne | src/AsyncFramework/JobScheduler.cpp:292-359 | and then one more thread runs exactly if a suspended, a new or a shared one is to be had; if not, none is unused or the scheduler waits for a shared one |
| SchedulerDemand.NoticeGetsEnough | src/AsyncFramework/JobScheduler.cpp:484-500 | a notified scheduler that is stopped ends with a thread for two jobs each, or may borrow no more, or waits again |
| SchedulerTheorems.CountersAgree | src/AsyncFramework/JobScheduler.h:342-376 | for every run: cached counts equal list sizes, the documented sums hold, no counter wraps, shared threads are held only while no private one is idle, and no running thread means no borrowed one |
| SchedulerTheorems.PoolConserved | src/AsyncFramework/JobScheduler.cpp:102-161 | for every run: between sections the schedulers hold exactly what is lent; and if the size is changed safely only, lent, idle and still creatable threads add up to it and no worker waits for its own end |
| SchedulerTheorems.BalanceIsExact | src/AsyncFramework/JobScheduler.cpp:165-181 | the pool keeps its documented bound all the way through a run if and only if every change of its size in it is safe |
| SchedulerTheorems.ThreadsInOnePlace | src/AsyncFramework/JobScheduler.cpp:240-279 | for every run: every thread record is in exactly one list of one scheduler, in the pool or on its way there, once; its owner field names the scheduler, and nobody in the pool and on the way |
| SchedulerTheorems.JobsConserved | src/AsyncFramework/JobScheduler.cpp:379-409 | for every run: every job given is on its way in, queued, in the hands of one running worker, finished or removed, and only one of these |
| SchedulerTheorems.WaitReturnsDone | src/AsyncFramework/JobScheduler.cpp:507-541 | when WaitForEmptyQueue returns, every job queued before has been finished or removed |
| SchedulerTheorems.NobodyLeftAsleep | src/AsyncFramework/JobScheduler.cpp:509-538 | for every run that never stops it: a sleeper on an unsignalled event of a scheduler with a private thread has a running thread to wake it |
| SchedulerTheorems.AllWakeUp | src/AsyncFramework/JobScheduler.cpp:509-541 | once the event is signalled, all who sleep on it can get up, and nothing else changes |
| SchedulerTheorems.ForgottenByStep | src/AsyncFramework/JobScheduler.cpp:507-633 | a step leaves a sleeper on an unsignalled event with nobody running and nothing queued if and only if it takes the last job of a scheduler for which nobody runs, by RemoveJobFromQueue or a stopped WaitForEmptyQueue, while somebody sleeps there |
| SchedulerTheorems.ForgettingIsExact | src/AsyncFramework/JobScheduler.cpp:507-633 | for every run, with Stops and without private threads as well: no sleeper is forgotten at any moment if and only if no step of the run is such a step |
| SchedulerTheorems.SleepersHaveWork | src/AsyncFramework/JobScheduler.cpp:507-541 | then a sleeper on an unsignalled event always has a running thread or a queued job |
| SchedulerTheorems.SomebodyWillWake | src/AsyncFramework/JobScheduler.cpp:507-541 | and a running thread, if the scheduler has a private one and is not stopped now |
| SchedulerTheorems.NotifierNotStarving | src/AsyncFramework/JobScheduler.cpp:153-160 | for every run: a notifier never notifies itself, and the scheduler it notifies is starved, off the list and notified by nobody else |
| SharedPool.SetCountExact | src/AsyncFramework/JobScheduler.cpp:165-181 | changing the pool size keeps the documented bound if and only if it is raised while nothing is lent, or lowered to no less than what is lent with nothing left to create |
| SharedPool.SetCountOvercommits | src/AsyncFramework/JobScheduler.cpp:170-171 | raising the size by one while one thread is lent lets the pool lend four threads with a limit of two |
| SharedPool.WithoutKeeps | src/AsyncFramework/JobScheduler.cpp:196-210 | removing a scheduler from the starving list leaves the others, each once |
| SchedulerLimits.NotifiedButStranded | src/AsyncFramework/JobScheduler.cpp:484-500 | a run in which a notified scheduler without private threads keeps its job queued although a shared thread is idle and nobody is registered as starving |
| SchedulerCapacity.HungryKept | src/AsyncFramework/JobScheduler.cpp:292-317 | in a pool of fixed size a scheduler starves only if all together may borrow more than the pool has and while it could borrow itself, and is notified while it holds a thread only if there are two |
| SchedulerCapacity.NobodyStarves | src/AsyncFramework/JobScheduler.cpp:292-317 | for every run with a fixed size: nobody starves if the pool has as many threads as all schedulers together may borrow |
| SchedulerCapacity.ServedKept | src/AsyncFramework/JobScheduler.cpp:213-359 | while the pool has more threads than all others may borrow, a scheduler that may borrow starves only while it holds a thread, and has one running for its jobs |
| SchedulerCapacity.StrandingTakes | src/AsyncFramework/JobScheduler.cpp:213-287 | for every run with a fixed size: work is stranded only without a private thread, and if nothing may be borrowed or all others may borrow the whole pool |
| SchedulerCapacity.DeadlockTakesTwo | src/AsyncFramework/JobScheduler.cpp:129-161 | for every run, however the size is changed: two schedulers get stuck only if the notifier may borrow one thread and the one that spins two |
| SchedulerCapacity.DeadlockTakes | src/AsyncFramework/JobScheduler.cpp:129-161 | for every run with a fixed size: only if, moreover, the pool has at least two threads but fewer than all together may borrow |
| SchedulerReach.Grow | src/AsyncFramework/JobScheduler.cpp:460-480 | jobs can be scheduled until a scheduler has one more thread, if one is to be had |
| SchedulerReach.Fill | src/AsyncFramework/JobScheduler.cpp:292-317 | schedulers can empty the pool, each within a given share, if the shares are enough |
| SchedulerReach.Starve | src/AsyncFramework/JobScheduler.cpp:308-313 | from the empty pool a scheduler that may borrow more becomes starving |
| SchedulerExact.StrandingIsExact | src/AsyncFramework/JobScheduler.cpp:213-359 | work can wait with nobody running for it, in a run with a fixed size, if and only if the scheduler has no private thread, and may borrow nothing or shares a pool that the others can empty; such a wait may be an ordinary one for an exhausted pool |
| SchedulerNotice.UnheardByStep | src/AsyncFramework/JobScheduler.cpp:484-500 | a scheduler that may borrow is left with waiting jobs, nobody running for them and no request for a thread by one kind of step only, a notification while it is not stopped and is in that need; and nothing ends that but a call on the scheduler itself, of Schedule, of Stop, or of RemoveJobFromQueue for all its jobs |
| SchedulerNotice.HearingIsExact | src/AsyncFramework/JobScheduler.cpp:484-500 | for every run: it is never left like that if and only if no step is such a notification |
| SchedulerNotice.AbandoningIsExact | src/AsyncFramework/JobScheduler.cpp:484-500 | in a run with a fixed size, work can be left like that while a shared thread is idle which the scheduler may borrow, if and only if the scheduler has no private thread but may borrow, and the pool has a thread and no more than all others may borrow; then it can be left so with nobody inside a section any more |
| SchedulerNotice.LettingDownIsExact | src/AsyncFramework/JobScheduler.cpp:484-500 | if the size may be changed, a scheduler that may borrow can be left like that if and only if it has no private thread and another one may borrow too |
| SchedulerExact.StuckIsExact | src/AsyncFramework/JobScheduler.cpp:361-372 | a run gets schedulers a and b stuck if and only if they are two, a may borrow a thread and b two: a condition on constructor arguments |
| SchedulerExact.DeadlockIsExact | src/AsyncFramework/JobScheduler.cpp:361-372 | a run with a fixed size does so if and only if, moreover, the pool has at least two threads but fewer than all together may borrow |
| SchedulerExact.EndingIsExact | src/AsyncFramework/JobScheduler.cpp:144-150 | a worker can be made to wait for its own end if and only if its scheduler may borrow, and only by an unsafe change of the size |
| SchedulerLimits.EndingIsForever | src/AsyncFramework/JobScheduler.cpp:144-150 | it waits for good, and nothing happens to the pool any more |
| SchedulerLimits.AsleepAfterStop | src/AsyncFramework/JobScheduler.cpp:595-659 | a run with Stop and RemoveJobFromQueue after which a waiter sleeps although the scheduler is resumed and idle |
| SchedulerLimits.DeadlockIsReachable | src/AsyncFramework/JobScheduler.cpp:361-372 | a pool of two and schedulers that may borrow one and two: a run in which the second spins in StopStarvation and the first waits for its mutex |
| SchedulerLimits.DeadlockIsForever | src/AsyncFramework/JobScheduler.cpp:361-372 | no run leads out of that state |
| SchedulerLimits.RemovedEnd | src/AsyncFramework/JobScheduler.cpp:608-624 | RemoveJobFromQueue with `oldest` removes the oldest jobs of a FIFO scheduler and the newest ones of a LIFO one |
| JobScheduler.ThreadPool.TryAlloc | src/AsyncFramework/JobScheduler.cpp:102-127 | lends the idle thread that came last, else a new one, else none, and books it |
| JobScheduler.ThreadPool.Release | src/AsyncFramework/JobScheduler.cpp:129-151 | takes a thread back while within the limit; over it, the calling worker is stuck, since it deletes its own thread and waits for its end; and when starving schedulers are to be notified |
| JobScheduler.ThreadPool.SelectStarving | src/AsyncFramework/JobScheduler.cpp:65-77 | hands out the first registered scheduler if a thread is idle |
| JobScheduler.ThreadPool.RemoveStarving | src/AsyncFramework/JobScheduler.cpp:196-210 | removes every entry of a scheduler and tells whether there was one |
| JobScheduler.ThreadPool.SetThreadCount | src/AsyncFramework/JobScheduler.cpp:165-181 | the new pool, which owner records disappear, and exactly when the documented bound survives |
| JobScheduler.JobScheduler.constructor | src/AsyncFramework/JobScheduler.cpp:413-431 | a new scheduler, with its counters, satisfies the invariant, and a pool without a size gets one thread per processor |
| JobScheduler.JobScheduler.AllocateSharedThread | src/AsyncFramework/JobScheduler.cpp:292-317 | borrowing in place is a run of the step model: a thread joins, or the scheduler registers as starving, or nothing if it has done so already |
| JobScheduler.JobScheduler.AllocateThread | src/AsyncFramework/JobScheduler.cpp:319-359 | succeeds exactly if a thread is to be had: the one suspended last before a new one before a shared one; the counters, and a failure leaves nothing unused or the scheduler registered |
| JobScheduler.JobScheduler.Schedule | src/AsyncFramework/JobScheduler.cpp:460-480 | the run of the step model that announces the job, queues it and gets at most one thread; and exactly when one more runs, by `aggressive`, queue, counters and pool |
| JobScheduler.JobScheduler.Resume | src/AsyncFramework/JobScheduler.cpp:641-659 | the allocation loop terminates with the invariant, and when the last Stop is taken back, with threads for the backlog at four jobs each, at one each if aggressive, unless none is left or a shared one is waited for |
| JobScheduler.JobScheduler.Stop | src/AsyncFramework/JobScheduler.cpp:635-639 | counts one more Stop and changes nothing else |
| JobScheduler.JobScheduler.RemoveJobFromQueue | src/AsyncFramework/JobScheduler.cpp:595-633 | returns the jobs beyond the watermark, from the end and in the order stated, and is one step of the model |
| JobScheduler.JobScheduler.WaitTurn | src/AsyncFramework/JobScheduler.cpp:509-535 | one turn of the waiting loop: removes what is queued if stopped and nothing otherwise, returns exactly if nothing is queued or running then, and else sleeps |
| JobScheduler.JobScheduler.AssignJob | src/AsyncFramework/JobScheduler.cpp:213-287 | gives the worker the next job of the end in use, or takes it off the running list: into the pool if anything is borrowed, else suspended, or ended if aggressive; a run of the step model that ends with the mutex free |
| JobScheduler.JobScheduler.FinishJob | src/AsyncFramework/JobScheduler.cpp:386-397 | the job leaves the hands of the worker, which is free for the next one, and counts as finished |
| JobScheduler.JobScheduler.ThreadFunc | src/AsyncFramework/JobScheduler.cpp:379-409 | one turn of a worker: executes and finishes one job, or goes idle, and may end only then |
| JobScheduler.JobScheduler.ReturnShared | src/AsyncFramework/JobScheduler.cpp:240-250 | returning a borrowed thread, with the end of starvation, completes in place and keeps the invariant |
| JobLife.BodyAtMostOnce | src/AsyncFramework/JobBase.cpp:70-86 | for every interleaving: the body runs at most once, never if termination was seen first, and a done job is one or the other |
| JobLife.TerminatedNeverRuns | src/AsyncFramework/JobBase.cpp:78-79 | a job terminated before its executing caller looked never runs its body afterwards |
| JobLife.TerminateIsObeyed | src/AsyncFramework/JobBase.cpp:111-116 | so after a Terminate before any caller looked the body is never run, whatever follows |
| JobLife.DeletableInTheEnd | src/AsyncFramework/JobBase.cpp:38-45 | for every interleaving: once the executing call is through, no OnUnSchedule is under way and the job is not scheduled, it is deletable, so the signal is never lost |
| JobLife.DeletableIsSafe | src/AsyncFramework/JobBase.cpp:81-84 | a deletable job is done, and not scheduled provided every OnSchedule of the run came before it was done and while no OnUnSchedule was under way |
| JobLife.ScheduledTooLate | src/AsyncFramework/JobBase.cpp:30-34 | without that proviso a job can be deletable and scheduled |
| JobLife.OnlyForward | src/AsyncFramework/JobBase.cpp:125-135 | flags that show progress are never taken back |
| JobLife.StatusIsProgress | src/AsyncFramework/JobBase.cpp:90-96 | for every interleaving: at one moment the status says whether nobody has begun to execute the job, somebody has and is not done, or somebody has done |
| JobLife.StatusMonotone | src/AsyncFramework/JobBase.cpp:90-96 | of two observers one after the other the second never sees an earlier status, although each reads two flags with anything in between |
| OneShotEvent.OverwritingIsExact | src/AsyncFramework/WaitableEvent.cpp:106-122 | a handle is overwritten in a run if and only if a caller that found none stores its own after another one has been stored |
| OneShotEvent.NobodyBlockedForever | src/AsyncFramework/WaitableEvent.cpp:162-182 | no lost wake-up: once the flag is set and no Set is half done, a waiter returns within six own steps, however many wait at a time, if no step of the run overwrote a handle |
| OneShotEvent.NobodyBlockedAlone | src/AsyncFramework/WaitableEvent.cpp:162-182 | in particular if callers wait one at a time |
| OneShotEvent.LostWithoutRetest | src/AsyncFramework/WaitableEvent.cpp:184-193 | without the second test of the flag a single waiter can be stuck |
| OneShotEvent.LostWhenCrowded | src/AsyncFramework/WaitableEvent.cpp:106-122 | with two waiters at once one of them can be stuck on a handle that the other has overwritten |
| OneShotEvent.StuckForever | src/AsyncFramework/WaitableEvent.cpp:162-182 | nothing that any caller does helps a stuck waiter |
| WorkerThread.ResumedMeansRunning | src/AsyncFramework/Thread.cpp:41-56 | with Suspend and Resume under one mutex, a waiting worker can go on if and only if it is not suspended; a Resume after its Suspend is never lost |
| WorkerThread.TerminatedLeaves | src/AsyncFramework/Thread.cpp:95-100 | a terminated worker outside of its function leaves its loop within three own steps |
| WorkerThread.TerminateIsObeyed | src/AsyncFramework/Thread.cpp:46-68 | so a Terminate ends the worker whatever happens after it, once its Resume is through and the worker is outside its function |
| WorkerThread.EndsOnlySo | src/AsyncFramework/Thread.cpp:46-68 | a worker ends only at the head of its loop after a Terminate, or when its function says so |
| WorkerThread.LostWhenOverlapping | src/AsyncFramework/Thread.cpp:83-93 | if the two may overlap, a Resume that begins after its Suspend has begun can be lost |
| PackedRefs.ReadRefs | src/Git/GitIndex.cpp:407-455 | the index-driven loop reads the references line by line, skipping at most one comment line before each |
| PackedRefs.ParseInvertsPrint | src/Git/GitIndex.cpp:407-455 | reading a well-formed packed-refs file, peeled tags included, gives what it lists, the last line of a name winning |
| PackedRefs.LinesAreListed | src/Git/GitIndex.cpp:407-455 | so for each name the hash has the digits that the last line of the name shows, and no name without a line is listed |
| PackedRefs.HashReadsBack | src/Git/GitHash.h:71-126 | the text of a hash, with the digits of either case, is read as the hash |
| PackedRefs.TextIsWritten | src/Git/GitHash.h:71-126 | any text is read as the hash with its digits, a zero for each character that is none |
| PackedRefs.HashesAreExact | src/Git/GitHash.h:71-126 | two texts are read as one hash if and only if they differ in case only, and as the empty hash if and only if all digits are 0 |
| PackedRefs.SecondCommentIsRead | src/Git/GitIndex.cpp:409-441 | a second comment line in a row is read as a reference: a hash up to the first space, which is never a usable one, and a name from there to its end |
| PackedRefs.SecondCommentIsListed | src/Git/GitIndex.cpp:409-441 | with a space in the line the rest of it is listed as a reference, and the next reference is read as usual |
| PackedRefs.SecondCommentSpoilsHash | src/Git/GitIndex.cpp:409-431 | without a space it swallows the hash of the next reference, which is listed with no usable one |
| HeadCache.HeadFileList.ReadPackRef | src/Git/GitIndex.cpp:359-456 | stamp first, then content; nothing is read if the stamp is the one seen last |
| HeadCache.HeadFileList.ReadHeadHash | src/Git/GitIndex.cpp:458-568 | fills the fields from looks at HEAD, branch and packed references at moments of their own, with every error return |
| HeadCache.DetachedIsAsWritten | src/Git/GitIndex.cpp:458-568 | a HEAD file that begins with forty digits is read as the commit with these digits |
| HeadCache.BranchIsAsWritten | src/Git/GitIndex.cpp:458-568 | a HEAD file that names a branch is read, whatever white space surrounds the name, as the digits in the file of the branch, else as its packed reference, else as no commit yet, with each error |
| HeadCache.PackedIsAsWritten | src/Git/GitIndex.cpp:359-456 | the packed reference of a name is the one on its last line |
| HeadCache.NothingIsRead | src/Git/GitIndex.cpp:458-568 | a HEAD file that is too short, or names a branch in a hundred megabytes or more, is an error |
| HeadCache.KeptIsFresh | src/Git/GitIndex.cpp:359-456 | packed references that are kept because of their stamp are those that a new reading gives |
| HeadCache.OtherIsRead | src/Git/GitIndex.cpp:359-456 | and of a file with another stamp the references are those that a new reading gives |
| HeadCache.CacheIsFresh | src/Git/GitIndex.cpp:570-611 | if CheckHeadUpdate answers no, a new reading whose looks fall where those of the check fell gives the same memo, for detached, loose and packed heads, whatever changes while files are read or checked |
| HeadCache.FreshAtOnce | src/Git/GitIndex.cpp:570-611 | a reading at the moment of the second look gives it if and only if HEAD is not switched between the first two looks |
| HeadCache.CheckIsExact | src/Git/GitIndex.cpp:570-611 | CheckHeadUpdate answers no if and only if HEAD is the version read and so is what the head came from |
| HeadCache.UnbornIsRechecked | src/Git/GitIndex.cpp:586-592 | an unborn branch is never taken from the cache |
| HeadCache.SwitchedWhileChecking | src/Git/GitIndex.cpp:570-603 | if HEAD is switched between two looks of one check, the cached head can be wrong both before and after the switch |
| HeadCache.HeadFileMap.CheckHeadAndUpdate | src/Git/GitIndex.cpp:1088-1103 | over all repositories: every entry stays one that was read, a cached answer equals a new reading at the moments of the check, and a failed reading drops the entry |
| SortVector.CompareIsMatch | src/Git/gitindex.h:376-392 | comparison gives 0 if and only if the name, or its start, is the key |
| SortVector.CompareGrows | src/Git/gitindex.h:376-424 | on sorted names comparison with a key never decreases, for whole names and for starts |
| SortVector.SearchInSortVector | src/Git/gitindex.h:394-424 | returns a match, or NPOS if and only if there is none |
| SortVector.Contiguous | src/Git/gitindex.h:333-374 | entries below a folder are next to each other |
| SortVector.GetRangeInSortVector | src/Git/gitindex.h:333-374 | returns exactly the range of entries below the folder |
| FolderStatus.ReadConflicts | src/Git/GitIndex.cpp:131-148 | m_bHasConflicts is set if and only if some entry is a side of a conflict |
| FolderStatus.ConflictOfFile | src/Git/GitIndex.cpp:281-356 | a side of a conflict shows as conflicted, unless it is a submodule whose directory exists |
| FolderStatus.GetFileStatus | src/Git/GitStatus.cpp:162-243 | status of one file against working tree, index and HEAD, with each error and the names outside the index |
| FolderStatus.IndexedFileShows | src/Git/GitIndex.cpp:206-356 | for a file with one entry: deleted if and only if missing, normal if and only if kind and size agree and the time as well or the hashed content, else modified; normal if flagged, added if intended to be; against HEAD added, modified or as it is; and each error |
| FolderStatus.ConflictShows | src/Git/GitIndex.cpp:281-356 | a file all entries of which are sides of a conflict shows as conflicted unless there is a directory |
| FolderStatus.OtherFileShows | src/Git/GitStatus.cpp:162-243 | a name outside the index shows as deleted if it is in HEAD and HEAD is looked at, else as ignored or unversioned |
| FolderStatus.LookedAtIs | src/Git/GitStatus.cpp:692-707 | without recursion the names looked at are the files and submodules right in the folder |
| FolderStatus.ImportanceIs | src/Git/GitStatus.cpp:74-102 | the more important of two statuses, for every pair |
| FolderStatus.FindConflict | src/Git/GitStatus.cpp:615-625 | the conflict loop, cut short by m_bHasConflicts, finds a conflict if and only if one is below the folder |
| FolderStatus.CheckStaged | src/Git/GitStatus.cpp:638-683 | the early exits of the comparison with HEAD do not change whether anything is staged |
| FolderStatus.CheckFiles | src/Git/GitStatus.cpp:692-715 | the early exit of the file loop does not change whether any looked-at file differs |
| FolderStatus.GetDirStatus | src/Git/GitStatus.cpp:537-716 | followed by AdjustFolderStatus it is the plain definition: conflicted if anything below is, else modified if anything differs, else normal; and the cases of a folder without entries |
| FolderStatus.ParentIsNoLess | src/Git/GitStatus.cpp:74-102 | a folder is at least as important as any folder inside it |
| CommandPacking.ConvertToCmdList | src/Git/MassiveGitTaskBase.cpp:202-227 | the command lines are those of the greedy packing, with either set of limits |
| CommandPacking.PackIsSplit | src/Git/MassiveGitTaskBase.cpp:215-226 | every path is in exactly one command, in order, and a command with several paths is at most max - (quotes - 2) long |
| CommandPacking.PackIsShortest | src/Git/MassiveGitTaskBase.cpp:215-226 | no order-preserving split into commands that fit has fewer commands |
| CommandPacking.PathsAreArguments | src/Git/MassiveGitTaskBase.cpp:215-226 | what the quotes of a command line enclose are the paths of its group, for paths without quotes |
| CommandPacking.ExecuteCommands | src/Git/MassiveGitTaskBase.cpp:138-179 | the batches follow each other without a gap, each ends as soon as it is due, and the loop ends at the first failure or cancellation and else after the last path |
| CommandPacking.BatchLength | src/Git/MassiveGitTaskBase.cpp:142-177 | how long the command line of a batch is, exactly, in terms of what the loop adds up |
| CommandPacking.BatchFits | src/Git/MassiveGitTaskBase.cpp:142-177 | it meets the limit if and only if what the line begins with is added in as well; one that is run because it is full never does |
| CommandPacking.FullBatch | src/Git/MassiveGitTaskBase.cpp:142-177 | with the larger count for quotes, a full batch exceeds the limit but for the surplus counted for all paths except the last |
| CommandPacking.BatchBound | src/Git/MassiveGitTaskBase.cpp:142-177 | no batch exceeds the limit by more than what the line begins with and the last path |
| CommandPacking.FullBatchIsPackedInSeveral | src/Git/MassiveGitTaskBase.cpp:142-227 | ConvertToCmdList makes several commands of what is run as one full batch of several paths |
| EnvBlock.Environment.Clear | src/Git/Git.cpp:2629-2633 | the empty buffer, and the address handed out is null |
| EnvBlock.Environment.GetEnv | src/Git/Git.cpp:2668-2682 | reads the value of the first string that is the variable |
| EnvBlock.Environment.SetEnv | src/Git/Git.cpp:2684-2750 | character-wise erasing and inserting gives the buffer with one string replaced, dropped or appended; the address handed out is null if and only if the block is empty |
| EnvBlock.Environment.CopyProcessEnvironment | src/Git/Git.cpp:2652-2666 | appends everything up to the first double NUL |
| EnvBlock.Environment.AddToPath | src/Git/Git.cpp:2752-2767 | appends a directory to PATH unless it is listed with or without a backslash |
| EnvBlock.SetVarRefines | src/Git/Git.cpp:2684-2750 | on a well-formed block SetEnv changes one variable where it is or adds it at the end, and the block stays well formed |
| EnvBlock.LookupRefines | src/Git/Git.cpp:2668-2682 | GetEnv reads the value of that variable from the block |
| EnvBlock.SetIsUpdate | src/Git/Git.cpp:2684-2750 | as a map from folded names, the block is updated at that name and nowhere else |
| EnvBlock.SetKeepsUnique | src/Git/Git.cpp:2684-2750 | no name occurs twice after SetEnv if none did before |
| EnvBlock.BlockIsMap | src/Git/Git.cpp:2668-2750 | after SetEnv, GetEnv gives the new value under that name, nothing after a removal, and the old value under every other name |
| EnvBlock.VarIsRead | src/Git/Git.cpp:2668-2682 | in a block of `name=value` lines GetEnv reads the variable whose name is the same but for the case of letters, leading equals signs apart |
| EnvBlock.VarIsChanged | src/Git/Git.cpp:2684-2750 | SetEnv writes, removes or adds that variable and leaves every other line as it is |
| EnvBlock.PathIsExtended | src/Git/Git.cpp:2752-2767 | AddToPath extends the search path in whatever case its name is written, and adds no variable if there is one; final semicolons and backslashes do not count |
| EnvBlock.CopyRefines | src/Git/Git.cpp:2652-2666 | copying the process environment gives a well-formed block if and only if the buffer was not the single NUL that removing the last variable leaves |
| EnvBlock.EmptyNameBreaksBlock | src/Git/Git.cpp:2684-2709 | after an assignment to the empty name or its removal the block is well formed if and only if the name was removed from a block without variables |
| EnvBlock.AddToPathOnce | src/Git/Git.cpp:2752-2767 | adding a directory a second time changes nothing if it does not end with a semicolon |
| EnvBlock.AddedAgainIsExact | src/Git/Git.cpp:2758-2764 | one that ends with a semicolon is added again if and only if what was stored of it does not by chance complete the text that is looked for, together with the end of the list before it |
| EnvBlock.AddedAgain | src/Git/Git.cpp:2758-2764 | in particular, one with no other semicolon is added again each time |
| LineSplitter.GitCallCb.OnOutputData | src/Git/Git.h:104-131 | delivers the complete lines of what was left and what came, and keeps the rest; pieces that are empty or too large are ignored |
| LineSplitter.GitCallCb.OnEnd | src/Git/Git.h:147-152 | delivers what is left unless it is empty |
| LineSplitter.CutContinues | src/Git/Git.h:117-129 | cutting the rest of one piece together with the next is cutting both together |
| LineSplitter.Receive | src/Git/Git.h:104-152 | however the output, of whatever length, is cut into pieces that can be added to the unfinished line, the same lines are delivered |
| LineSplitter.CutIsSplit | src/Git/Git.h:117-129 | without NULs the lines, a newline after each, and the rest are the whole text, with no newline inside a line |
| LineSplitter.SplitIsUnique | src/Git/Git.h:117-129 | there is no other way to split a text like that |
| LineSplitter.NulStalls | src/Git/Git.h:117-120 | a NUL holds back everything after it until the end of the output |
| LineSplitter.NulIsExact | src/Git/Git.h:117-129 | with a NUL in the output, the lines are its newline split if and only if no newline follows the first one |
| LogRecords.StatusFound | src/Git/TGitPath.cpp:1272-1284 | searching from six characters before the end of the header finds the status, with a score of up to four digits |
| LogRecords.RawReadsBack | src/Git/TGitPath.cpp:1269-1301 | a printed raw record, of a merge as well, is read back: modes, status and both names |
| LogRecords.NumstatReadsBack | src/Git/TGitPath.cpp:1344-1376 | a printed numstat record is read back, renames included |
| LogRecords.ReadsBack | src/Git/TGitPath.cpp:1253-1396 | reading goes on exactly after the record |
| LogParser.PathList.Add | src/Git/TGitPath.cpp:1303-1341 | lists a new path or updates the one found, in place |
| LogParser.PathList.ParserFromLog | src/Git/TGitPath.cpp:1240-1402 | on any bytes: ends, stays inside the array and the list, fails exactly if a record is malformed, and else applies all records in order |
| LogParser.ActionIsUnion | src/Git/TGitPath.cpp:1318-1332 | the action mask of the list is the union of those of its paths |
| LogParser.PlacesAreExact | src/Git/TGitPath.cpp:1303-1341 | every listed path is found at its own position if and only if no new path was stored under a name that was taken already |
| LogParser.PathsAreDistinct | src/Git/TGitPath.cpp:1335-1340 | as long as no raw record names a bare drive, that never happens, and no path is listed twice |
| LogParser.DriveIsListedTwice | src/Git/TGitPath.cpp:1303-1338 | a bare drive that is named twice is listed twice |
| LogParser.NothingIsLost | src/Git/TGitPath.cpp:1303-1395 | the name of every record is that of a listed path, or one that a listed path had before it was renamed |
| LogParser.RecordsReadBack | src/Git/TGitPath.cpp:1253-1396 | reading a printed log gives the records it was printed from |
| LogParser.EachRecordIsListed | src/Git/TGitPath.cpp:1322-1341 | raw records of different files are listed one by one in order |
| LogParser.LogReadsBack | src/Git/TGitPath.cpp:1240-1402 | so the parser inverts the printer of such logs |
| LogListing.LogIsListed | src/Git/TGitPath.cpp:1240-1402 | for a printed log of different files: each path has exactly the actions that its status letter means, Merged if printed as a merge, is a directory by the mode that counts, and has its line counts in order |
| LogListing.LogGoesOn | src/Git/TGitPath.cpp:1303-1341 | one more raw record, of any file: a known file gets exactly the actions it adds, but for a renamed file of a merge, and a new one is listed at the end |
| LogListing.CountGoesOn | src/Git/TGitPath.cpp:1378-1395 | one more line count is kept with its file, or lists the file without an action |
| LogRecords.ModeValue | src/Git/TGitPath.cpp:1275-1276 | a mode is the number of its six octal digits |
| LogRecords.OctalIs | src/Git/TGitPath.cpp:1275-1276 | strtol reads white space, a sign and octal digits, up to anything else, and a number of more than 32 bits as the nearest one |
| RenameAbbrev.PrefixLength | src/Git/TGitPath.cpp:1806-1815 | the longest common start that ends with a slash |
| RenameAbbrev.SuffixLength | src/Git/TGitPath.cpp:1817-1830 | the longest common end that begins with a slash and shares at most the slash of the common start |
| RenameAbbrev.GetAbbreviatedRename | src/Git/TGitPath.cpp:1801-1859 | the text is made from these two lengths, or is the file name if there is no old path |
| RenameAbbrev.FileNameIs | src/Git/TGitPath.cpp:472-476 | the file name is what follows the last slash |
| RenameAbbrev.MiddleLengths | src/Git/TGitPath.cpp:1838-1843 | a middle length is at least -1, and both are -1 if and only if the paths are equal and have a slash |
| RenameAbbrev.PartsRebuild | src/Git/TGitPath.cpp:1845-1859 | both paths can be put together again from the shown parts, a slash at both ends of a join being one |
| RenameAbbrev.TextExpands | src/Git/TGitPath.cpp:1845-1859 | the text stands for exactly the two paths, if they do not use its own characters |

## Left out

- the waiting for some jobs, `threadIsIdle` and `waitingThreads`: no guarantee to state (src/AsyncFramework/JobScheduler.cpp:543-572).
- JobScheduler.JobScheduler.AssignJob: covers one scheduler alone with the pool; several schedulers, notification of starving ones and everything that can interfere are the subject of the step model (SchedulerWorld), whose steps the methods are proved to be.
- JobScheduler.JobScheduler.StopStarvation: the spin is a single attempt, because with nobody else at work it succeeds; in the step model it may go on forever, and SchedulerLimits shows that it can.
- JobScheduler.JobScheduler.ReturnShared: with nobody else there, nobody is notified; notifying is part of the step model.
- JobScheduler.ThreadPool.SetThreadCount: the program waits for the idle threads that it ends, while it holds the pool's mutex; here they are gone at once. Machine integers of the pool are unbounded here, so `threadCount + sharedThreads` and `maxCount - pool.size() + allocCount` do not wrap.
- the destructors of scheduler and pool, including the StopStarvation there that holds no mutex; what they assert follows from SchedulerTheorems.CountersAgree.
- when the memory of a job is freed after `deletable` is set, and jobs deleted by the scheduler because it owns them.
- OneShotEvent.NobodyBlockedForever: covers WaitFor only; WaitForEndOrTimeout has no such guarantee, as OneShotEvent.LostWithoutRetest shows.
- waking from `emptyEvent` is only possible while it is set; a waiter that is released and then finds it reset again is a waiter that looks again.
- handles, events and critical sections of the operating system are flags and steps; memory is sequentially consistent.
- HeadCache.CacheIsFresh: assumes that the stamp of a file (time and size for HEAD and packed-refs, time for a branch) tells its versions apart, and that no time is 0. The content of a file that has been opened is read in one access.
- PackedRefs.ReadRefs: where a file ends without a newline, the program looks at one character after the end; the model does not.
- reading the tree of the new head (`ReadTree`) is a parameter that says whether it succeeds; paths are used as they are, without the normalisation of the map's keys.
- FolderStatus.GetFileStatus: libgit2's hashing of a file is a parameter; the modification time that is remembered in the index after an equal hash is not modelled, nor are the ignore files, which are a parameter.
- SortVector.SearchInSortVector: names are compare keys; the locale's folding of case that makes them is not modelled. An index with two unstaged entries of one key, or a tree with two items of one key, is excluded.
- the variant of GetDirStatus for the status cache (`EnumDirStatus`), which enumerates directories.
- CommandPacking.ExecuteCommands: the branch that passes a file with path specifications to a recent git; message boxes and progress.
- EnvBlock.SetVarRefines: names are non-empty and free of `=` and NUL, as a variable's name is; case is folded for the letters A to Z only.
- LineSplitter.GitCallCb.OnOutputData: the error output (`OnOutputErrData`), which is only collected.
- text encodings: bytes are characters everywhere.
- LogParser.PathList.ParserFromLog: after an error the list built so far is not described; it is a leftover. Actions are sets of flags in place of bit masks.
- RenameAbbrev.TextExpands: paths without doubled slashes and without `{`, `}` and `>`.
- `RemoveDuplicates`, `RemoveChildren` and the other operations of the path list, the ignore lists, and all user interface code.
