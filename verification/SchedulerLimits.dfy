/** Where the guarantees of the scheduler end: runs that show what the code does not
    promise, and what becomes of them. */
module SchedulerLimits {
  import opened Options
  import opened JobQueue
  import opened SchedulerModel
  import opened SchedulerSteps
  import opened SharedPool
  import opened SchedulerWorld
  import opened SchedulerRuns
  import opened SchedulerTheorems
  import opened SchedulerCapacity
  import opened SchedulerExact

  /** Two schedulers without private threads that may each borrow one, and a pool of one. */
  function TwoBorrowers(): World {
    World([NewSched(0, 1, false, true), NewSched(0, 1, false, true)], Pool([], 0, 1, 1, []), map[])
  }

  /** The first scheduler has the only shared thread, for job `a`. */
  lemma OneBusy() returns (run: seq<Action>, w: World)
    ensures Exec(TwoBorrowers(), run) == Option.Some(w)
    ensures |w.scheds| == 2 && w.pool == Pool([], 1, 1, 0, []) && w.owner == map[7 := Option.Some(0)]
    ensures var x := w.scheds[0];
            && x.pc.Free? && x.queue == Deque([Job(1, false)], true) && x.ledger.hands == [] && !x.aggressive
            && x.threads == Threads([7], [], 1, 0, 0, 1, 1, 0, false, 0)
    ensures w.scheds[1] == NewSched(0, 1, false, true)
  {
    hide Runs.Exec, TakeOff;
    var a := Job(1, false);
    var w0 := TwoBorrowers();
    run := [];
    Runs.Start(Next, w0);
    var w1; run, w1 := Runs.Step(Next, w0, run, w0, DoAnnounce(0, a));
    var w2; run, w2 := Runs.Step(Next, w0, run, w1, DoEnqueue(0, a));
    run, w := Runs.Step(Next, w0, run, w2, DoAllocate(0, 7));
  }

  /** The second scheduler queues a job, gets no thread for it and registers as starving. */
  lemma OtherStarves() returns (run: seq<Action>, w: World)
    ensures Exec(TwoBorrowers(), run) == Option.Some(w)
    ensures |w.scheds| == 2 && w.pool == Pool([], 1, 1, 0, [1])
    ensures var x := w.scheds[0];
            && x.pc.Free? && x.queue == Deque([Job(1, false)], true) && x.ledger.hands == [] && !x.aggressive
            && x.threads == Threads([7], [], 1, 0, 0, 1, 1, 0, false, 0)
    ensures var x := w.scheds[1];
            && x.pc.Free? && x.queue.jobs == [Job(2, false)] && x.ledger.hands == []
            && x.threads == Threads([], [], 0, 0, 0, 0, 1, 1, true, 0)
  {
    hide Runs.Exec, TakeOff;
    var b := Job(2, false);
    var w0 := TwoBorrowers();
    var w1; run, w1 := OneBusy();
    var w2; run, w2 := Runs.Step(Next, w0, run, w1, DoAnnounce(1, b));
    var w3; run, w3 := Runs.Step(Next, w0, run, w2, DoEnqueue(1, b));
    var w4; run, w4 := Runs.Step(Next, w0, run, w3, DoAllocate(1, 0));
    run, w := Runs.Step(Next, w0, run, w4, DoRegister(1));
  }

  /** The first scheduler finishes its job. */
  lemma BothBusy() returns (run: seq<Action>, w: World)
    ensures Exec(TwoBorrowers(), run) == Option.Some(w)
    ensures |w.scheds| == 2 && w.pool == Pool([], 1, 1, 0, [1])
    ensures var x := w.scheds[0];
            && x.pc.Free? && x.queue.jobs == [] && x.ledger.hands == [] && !x.aggressive
            && x.threads == Threads([7], [], 1, 0, 0, 1, 1, 0, false, 0)
    ensures var x := w.scheds[1];
            && x.pc.Free? && x.queue.jobs == [Job(2, false)] && x.ledger.hands == []
            && x.threads == Threads([], [], 0, 0, 0, 0, 1, 1, true, 0)
  {
    hide Runs.Exec, TakeOff;
    var w0 := TwoBorrowers();
    var w1; run, w1 := OtherStarves();
    assert !w1.scheds[0].Busy(7);
    var w2; run, w2 := Runs.Step(Next, w0, run, w1, DoAssign(0, 0));
    assert w2.scheds[0].ledger.hands == [Hand(7, Job(1, false))];
    run, w := Runs.Step(Next, w0, run, w2, DoFinish(0, 0));
  }

  /** The first scheduler has given its thread back and is about to look for starving ones. */
  lemma ThreadReturned() returns (run: seq<Action>, w: World)
    ensures Exec(TwoBorrowers(), run) == Option.Some(w)
    ensures |w.scheds| == 2 && w.pool == Pool([7], 0, 1, 0, [1])
    ensures w.scheds[0].pc == Notifying && w.scheds[0].threads == Threads([], [], 1, 0, 0, 1, 1, 0, false, 0)
    ensures w.scheds[1].queue.jobs == [Job(2, false)] && w.scheds[1].pc.Free? && w.scheds[1].ledger.hands == []
    ensures w.scheds[1].threads == Threads([], [], 0, 0, 0, 0, 1, 1, true, 0)
  {
    hide Runs.Exec, TakeOff;
    var w0 := TwoBorrowers();
    var w1; run, w1 := BothBusy();
    assert !w1.scheds[0].Busy(7);
    var w2; run, w2 := Runs.Step(Next, w0, run, w1, DoAssign(0, 0));
    assert w2.scheds[0].pc == Unstarving(7);
    var w3; run, w3 := Runs.Step(Next, w0, run, w2, DoUnstarve(0));
    run, w := Runs.Step(Next, w0, run, w3, DoGive(0));
  }

  /** The second scheduler has been notified, and gone on without a thread. */
  lemma NotifiedInVain() returns (run: seq<Action>, w: World)
    ensures Exec(TwoBorrowers(), run) == Option.Some(w)
    ensures |w.scheds| == 2 && w.pool == Pool([7], 0, 1, 0, [])
    ensures w.scheds[0].pc == AwaitingService(1) && w.scheds[0].threads == Threads([], [], 1, 0, 0, 1, 1, 0, false, 0)
    ensures w.scheds[1].queue.jobs == [Job(2, false)] && w.scheds[1].pc.Free? && w.scheds[1].ledger.hands == []
    ensures w.scheds[1].threads == Threads([], [], 0, 0, 0, 0, 1, 1, false, 0)
  {
    hide Runs.Exec, TakeOff;
    var w0 := TwoBorrowers();
    var w1; run, w1 := ThreadReturned();
    var w2; run, w2 := Runs.Step(Next, w0, run, w1, DoSelect(0));
    run, w := Runs.Step(Next, w0, run, w2, DoServe(0));
  }

  /** Without a private thread work can be stranded although a shared thread is idle: the
      notified scheduler is taken off the starving list, but its loop only runs while stopped. */
  lemma NotifiedButStranded() returns (run: seq<Action>, w: World)
    ensures Reached(w, TwoBorrowers(), run)
    ensures |w.scheds| == 2 && Stranded(w.scheds[1]) && w.scheds[1].ledger.hands == [] && w.scheds[1].threads.fromShared < w.scheds[1].threads.maxFromShared
    ensures w.pool.idle == [7] && w.pool.starving == [] && w.scheds[0].pc.Free? && w.scheds[0].threads.running == []
  {
    hide Runs.Exec, TakeOff;
    var w0 := TwoBorrowers();
    var w1; run, w1 := NotifiedInVain();
    var w2; run, w2 := Runs.Step(Next, w0, run, w1, DoReturn(0));
    run, w := Runs.Step(Next, w0, run, w2, DoSelect(0));
  }

  /** One private thread, nothing shared. */
  function OneWorker(): World {
    World([NewSched(1, 0, false, true)], Pool([], 0, 0, 0, []), map[])
  }

  /** A caller waits while the only thread runs. */
  lemma OneWaits() returns (run: seq<Action>, w: World)
    ensures Exec(OneWorker(), run) == Option.Some(w) && |w.scheds| == 1
    ensures var x := w.scheds[0];
            && x.pc.Free? && x.queue == Deque([Job(1, false)], true) && x.ledger.hands == [] && x.ledger.sleepers == 1
            && x.threads == Threads([7], [], 1, 0, 0, 0, 0, 0, false, 0) && !x.aggressive
  {
    hide Runs.Exec, TakeOff;
    var a := Job(1, false);
    var w0 := OneWorker();
    run := [];
    Runs.Start(Next, w0);
    var w1; run, w1 := Runs.Step(Next, w0, run, w0, DoAnnounce(0, a));
    var w2; run, w2 := Runs.Step(Next, w0, run, w1, DoEnqueue(0, a));
    var w3; run, w3 := Runs.Step(Next, w0, run, w2, DoAllocate(0, 7));
    assert w3.scheds[0].threads == Threads([7], [], 1, 0, 0, 0, 0, 0, false, 0);
    run, w := Runs.Step(Next, w0, run, w3, DoWait(0));
  }

  /** The scheduler is stopped, its thread goes idle, and the waiting job is taken away. */
  lemma OneStopped() returns (run: seq<Action>, w: World)
    ensures Exec(OneWorker(), run) == Option.Some(w) && |w.scheds| == 1
    ensures var x := w.scheds[0];
            && x.pc.Free? && x.queue == Deque([], true) && x.ledger.sleepers == 1
            && x.threads == Threads([], [7], 0, 1, 0, 0, 0, 1, false, 1) && !x.aggressive
  {
    hide Runs.Exec, TakeOff;
    var w0 := OneWorker();
    var w1; run, w1 := OneWaits();
    var w2; run, w2 := Runs.Step(Next, w0, run, w1, DoStop(0));
    assert !w2.scheds[0].Busy(7);
    var w3; run, w3 := Runs.Step(Next, w0, run, w2, DoAssign(0, 0));
    assert w3.scheds[0].threads == Threads([], [7], 0, 1, 0, 0, 0, 1, false, 1);
    run, w := Runs.Step(Next, w0, run, w3, DoRemove(0, 0, true));
    RemovedEnd(w3.scheds[0], 0, true);
  }

  /** After a Stop a caller of WaitForEmptyQueue can be left asleep although the scheduler has
      been resumed, its queue is empty and nothing is being executed. */
  lemma AsleepAfterStop() returns (run: seq<Action>, w: World)
    ensures Reached(w, OneWorker(), run) && |w.scheds| == 1
    ensures var x := w.scheds[0];
            && x.pc.Free? && x.threads.stopCount == 0 && x.queue.jobs == [] && x.threads.runningCount == 0
            && x.ledger.sleepers > 0 && !x.emptyEvent
  {
    hide Runs.Exec, TakeOff;
    var b := Job(2, false);
    var w0 := OneWorker();
    var w1; run, w1 := OneStopped();
    var w2; run, w2 := Runs.Step(Next, w0, run, w1, DoAnnounce(0, b));
    var w3; run, w3 := Runs.Step(Next, w0, run, w2, DoEnqueue(0, b));
    assert !w3.scheds[0].emptyEvent && w3.scheds[0].queue.jobs == [b] && w3.scheds[0].pc.Free?;
    var w4; run, w4 := Runs.Step(Next, w0, run, w3, DoRemove(0, 0, true));
    RemovedEnd(w3.scheds[0], 0, true);
    assert w4.scheds[0].queue.jobs == [];
    run, w := Runs.Step(Next, w0, run, w4, DoResume(0));
  }

  // ---------------------------------------------------------------- StopStarvation against Release

  lemma DeadlockStep(w: World, a: Sid, b: Sid, action: Action)
    requires Deadlocked(w, a, b) && Next(w, action).Some?
    ensures Deadlocked(Next(w, action).value, a, b)
  {
    if Plain(action) {
      PlainViews(w, action);
      PlainKeepsPc(w, a, action);
      PlainKeepsPc(w, b, action);
    }
  }

  /** A step that concerns one scheduler leaves alone one that is in the middle of a section. */
  lemma PlainKeepsPc(w: World, s: Sid, action: Action)
    requires s < |w.scheds| && (w.scheds[s].pc.Handing? || w.scheds[s].pc.Unstarving?)
    requires Plain(action) && Next(w, action).Some?
    ensures Next(w, action).value.scheds[s].pc == w.scheds[s].pc
    ensures Next(w, action).value.scheds[s].threads == w.scheds[s].threads
    ensures Next(w, action).value.pool == w.pool
  {
  }

  /** Once there, no run leads out of it. */
  lemma {:induction false} DeadlockIsForever(w: World, a: Sid, b: Sid, run: seq<Action>)
    requires Deadlocked(w, a, b) && Exec(w, run).Some?
    ensures Deadlocked(Exec(w, run).value, a, b)
    decreases |run|
  {
    if |run| > 0 {
      DeadlockStep(w, a, b, run[0]);
      DeadlockIsForever(Next(w, run[0]).value, a, b, run[1..]);
    }
  }

  /** A scheduler that may borrow one thread, one that may borrow two and starts threads
      aggressively, and a pool of two. */
  function ThreeWanted(): World {
    World([NewSched(0, 1, false, true), NewSched(0, 2, true, true)], Pool([], 0, 2, 2, []), map[])
  }

  /** The deadlock can be reached. */
  lemma DeadlockIsReachable() returns (run: seq<Action>, w: World)
    ensures Reached(w, ThreeWanted(), run) && Deadlocked(w, 0, 1)
  {
    var start := ThreeWanted();
    assert SumMax(start.scheds[1..]) == 2;
    hide Exec;
    run, w := DeadlockFollows(start, 0, 1);
  }

  // ---------------------------------------------------------------- a pool made smaller

  /** A worker that waits for its own end does so for good, and holds the pool's mutex. */
  lemma {:induction false} EndingIsForever(w: World, s: Sid, run: seq<Action>)
    requires s < |w.scheds| && w.scheds[s].pc.Ending? && Exec(w, run).Some?
    ensures var w' := Exec(w, run).value;
            s < |w'.scheds| && w'.scheds[s].pc == w.scheds[s].pc && w'.pool == w.pool
    decreases |run|
  {
    hide Next;
    if |run| > 0 {
      EndingStays(w, s, run[0]);
      EndingIsForever(Next(w, run[0]).value, s, run[1..]);
    }
  }

  lemma EndingStays(w: World, s: Sid, a: Action)
    requires s < |w.scheds| && w.scheds[s].pc.Ending? && Next(w, a).Some?
    ensures var w' := Next(w, a).value;
            s < |w'.scheds| && w'.scheds[s].pc == w.scheds[s].pc && w'.pool == w.pool
  {
    hide TakeOff;
    assert !w.PoolFree();
  }

  // ---------------------------------------------------------------- which end jobs are removed from

  /** RemoveJobFromQueue with `oldest` set removes the oldest jobs of a FIFO scheduler but the
      newest jobs of a LIFO one, and the other way round without it. */
  lemma RemovedEnd(s: Sched, watermark: nat, oldest: bool)
    requires watermark < |s.queue.jobs|
    ensures var jobs, q := s.queue.jobs, RemoveJobs(s, watermark, oldest).queue;
            && q.fifo == s.queue.fifo
            && q.jobs == if oldest == s.queue.fifo then jobs[|jobs| - watermark..] else jobs[..watermark]
  {
    var q := s.queue.Do(SetFifo(oldest == s.queue.fifo));
    TakeOffConserves(q, |q.jobs| - watermark);
    TakeOffEnds(q, |q.jobs| - watermark);
  }
}
