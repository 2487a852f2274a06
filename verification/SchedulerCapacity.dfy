/** What follows from how many threads the schedulers may borrow and how many the pool has, in
    runs that leave the size of the pool alone. */
module SchedulerCapacity {
  import opened SchedulerModel
  import opened SharedPool
  import opened SchedulerWorld
  import opened SchedulerRuns
  import opened SchedulerTheorems

  predicate NoResize(run: seq<Action>) {
    forall i :: 0 <= i < |run| ==> !run[i].DoSetCount?
  }

  /** How many threads all schedulers together may borrow. */
  function SumMax(scheds: seq<Sched>): int {
    if |scheds| == 0 then 0 else scheds[0].threads.maxFromShared + SumMax(scheds[1..])
  }

  /** What a scheduler was constructed with. */
  predicate SameMake(x: Sched, y: Sched) {
    x.threadCount == y.threadCount && x.aggressive == y.aggressive
    && x.threads.maxFromShared == y.threads.maxFromShared
  }

  ghost predicate SameMakes(w: World, w': World) {
    |w.scheds| == |w'.scheds| && forall s: Sid :: s < |w.scheds| ==> SameMake(w.scheds[s], w'.scheds[s])
  }

  lemma {:induction false} SumMaxSame(a: seq<Sched>, b: seq<Sched>)
    requires |a| == |b| && forall s: Sid :: s < |a| ==> a[s].threads.maxFromShared == b[s].threads.maxFromShared
    ensures SumMax(a) == SumMax(b)
  {
    if |a| > 0 {
      SumMaxSame(a[1..], b[1..]);
    }
  }

  /** What is lent, and what one scheduler could still borrow, is no more than all may borrow. */
  lemma {:induction false} LentBelowMax(scheds: seq<Sched>, s: Sid)
    requires s < |scheds| && forall r: Sid :: r < |scheds| ==> scheds[r].Lent() <= scheds[r].threads.maxFromShared
    ensures SumLent(scheds) - scheds[s].Lent() <= SumMax(scheds) - scheds[s].threads.maxFromShared
  {
    if |scheds| > 1 {
      if s == 0 {
        LentBelowMax(scheds[1..], 0);
      } else {
        LentBelowMax(scheds[1..], s - 1);
      }
    }
  }

  lemma LentBounds(w: World, s: Sid)
    requires AllSchedInv(w) && s < |w.scheds|
    ensures w.scheds[s].Lent() <= w.scheds[s].threads.fromShared <= w.scheds[s].threads.maxFromShared
    ensures SumLent(w.scheds) - w.scheds[s].Lent() <= SumMax(w.scheds) - w.scheds[s].threads.maxFromShared
  {
    forall r: Sid | r < |w.scheds| ensures w.scheds[r].Lent() <= w.scheds[r].threads.fromShared <= w.scheds[r].threads.maxFromShared {
      assert SchedInv(w.scheds[r]);
      hide Backlog, Tallied, HandsOk, NobodyForgotten, NoDup;
    }
    LentBelowMax(w.scheds, s);
  }

  // ---------------------------------------------------------------- how a step changes borrowing

  /** What one step can do to one scheduler, as far as borrowing and starving go. */
  ghost predicate BorrowingStep(w: World, a: Action, r: Sid, x: Sched, x': Sched) {
    && SameMake(x, x')
    && (x'.threads.fromShared > x.threads.fromShared ==> a.DoAllocate? && a.s == r && !x.threads.starved)
    && (x'.threads.fromShared < x.threads.fromShared ==> x.pc.Giving? || x.pc.Returned())
    && (x'.threads.starved && !x.threads.starved ==>
          a.DoAllocate? && a.s == r && w.pool.Exhausted() && x.pc.Allocating?
          && x'.threads.fromShared == x.threads.fromShared < x.threads.maxFromShared)
    && (x'.pc.Handing? && x'.pc != x.pc ==>
          w.pool.HasStarving() && x'.pc.to == w.pool.starving[0] && x'.threads == x.threads)
  }

  lemma PlainBorrowing(w: World, a: Action)
    requires Next(w, a).Some? && Plain(a)
    ensures forall r: Sid :: r < |w.scheds| ==> BorrowingStep(w, a, r, w.scheds[r], Next(w, a).value.scheds[r])
  {
  }

  lemma AllocateBorrowing(w: World, a: Action)
    requires Next(w, a).Some? && a.DoAllocate?
    ensures var w' := Next(w, a).value;
            && |w'.scheds| == |w.scheds| && w'.pool.maxCount == w.pool.maxCount
            && forall r: Sid :: r < |w.scheds| ==> BorrowingStep(w, a, r, w.scheds[r], w'.scheds[r])
  {
    hide World.PoolFree;
  }

  lemma PoolBorrowing(w: World, a: Action)
    requires Next(w, a).Some? && !Plain(a) && !a.DoAllocate?
    ensures var w' := Next(w, a).value;
            && |w'.scheds| == |w.scheds|
            && (!a.DoSetCount? ==> w'.pool.maxCount == w.pool.maxCount)
            && forall r: Sid :: r < |w.scheds| ==> BorrowingStep(w, a, r, w.scheds[r], w'.scheds[r])
  {
    hide TakeOff, World.PoolFree, Allocate;
  }

  lemma Borrowing(w: World, a: Action)
    requires Next(w, a).Some?
    ensures var w' := Next(w, a).value;
            && |w'.scheds| == |w.scheds|
            && (!a.DoSetCount? ==> w'.pool.maxCount == w.pool.maxCount)
            && forall r: Sid :: r < |w.scheds| ==> BorrowingStep(w, a, r, w.scheds[r], w'.scheds[r])
  {
    hide BorrowingStep;
    if Plain(a) {
      PlainViews(w, a);
      PlainBorrowing(w, a);
    } else {
      hide Next;
      if a.DoAllocate? {
        AllocateBorrowing(w, a);
      } else {
        PoolBorrowing(w, a);
      }
    }
  }

  // ---------------------------------------------------------------- what starving takes

  /** A scheduler starves only if all together may borrow more than the pool has, and while it
      could still borrow itself; and it is notified while it holds a thread only if the pool has
      two. */
  ghost predicate Hungry(w: World) {
    && w.pool.Balanced()
    && (forall s: Sid :: s < |w.scheds| && w.scheds[s].threads.starved ==>
          w.scheds[s].threads.fromShared < w.scheds[s].threads.maxFromShared && w.pool.maxCount < SumMax(w.scheds))
    && (forall s: Sid :: s < |w.scheds| && w.scheds[s].pc.Handing? ==>
          w.scheds[s].pc.to < |w.scheds|
          && (w.scheds[w.scheds[s].pc.to].threads.fromShared > 0 ==> w.pool.maxCount >= 2))
  }

  /** Facts about the schedulers that are in somebody's hands or in the queue of starving ones. */
  lemma StarvingFacts(w: World)
    requires Inv(w)
    ensures forall s: Sid :: s < |w.scheds| && w.scheds[s].pc.Handing? ==>
              w.scheds[s].pc.to < |w.scheds| && w.scheds[w.scheds[s].pc.to].threads.starved
    ensures forall i :: 0 <= i < |w.pool.starving| ==>
              w.pool.starving[i] < |w.scheds| && w.scheds[w.pool.starving[i]].threads.starved
  {
    hide SchedInv, Places.Exact, NoDup;
    var h := HungerOf(w);
    assert forall s: Sid :: s < |w.scheds| ==>
      h.handing[s] == HandingOf(w.scheds[s]) && h.starved[s] == w.scheds[s].threads.starved;
    assert forall i :: 0 <= i < |w.pool.starving| ==> w.pool.starving[i] in h.queued;
  }

  lemma StarvedIsNotReturning(x: Sched)
    requires SchedInv(x) && x.threads.starved
    ensures x.Lent() == x.threads.fromShared && !x.pc.Returned()
  {
  }

  lemma HungryKept(w: World, a: Action)
    requires Inv(w) && Hungry(w) && Next(w, a).Some? && !a.DoSetCount?
    ensures Hungry(Next(w, a).value)
  {
    hide Inv, Next, SumMax, SchedInv;
    var w' := Next(w, a).value;
    BalanceKept(w, a);
    Borrowing(w, a);
    StarvingFacts(w);
    SumMaxSame(w.scheds, w'.scheds);
    forall s: Sid | s < |w'.scheds| && w'.scheds[s].threads.starved
      ensures w'.scheds[s].threads.fromShared < w'.scheds[s].threads.maxFromShared && w'.pool.maxCount < SumMax(w'.scheds)
    {
      assert BorrowingStep(w, a, s, w.scheds[s], w'.scheds[s]);
      if !w.scheds[s].threads.starved {
        ExhaustedBelowMax(w, s);
      } else {
        StarvedKeepsBorrowed(w, a, s);
      }
    }
    forall s: Sid | s < |w'.scheds| && w'.scheds[s].pc.Handing?
      ensures w'.scheds[s].pc.to < |w'.scheds|
      ensures w'.scheds[w'.scheds[s].pc.to].threads.fromShared > 0 ==> w'.pool.maxCount >= 2
    {
      assert BorrowingStep(w, a, s, w.scheds[s], w'.scheds[s]);
      var b := w'.scheds[s].pc.to;
      if w'.scheds[s].pc != w.scheds[s].pc {
        assert b == w.pool.starving[0];
        if w'.scheds[b].threads.fromShared > 0 {
          StarvedKeepsBorrowed(w, a, b);
          LentTo(w, b);
        }
      } else if w'.scheds[b].threads.fromShared > 0 {
        StarvedKeepsBorrowed(w, a, b);
      }
    }
  }

  /** A starved scheduler neither borrows nor returns a thread. */
  lemma StarvedKeepsBorrowed(w: World, a: Action, s: Sid)
    requires Inv(w) && Next(w, a).Some? && s < |w.scheds| && w.scheds[s].threads.starved
    ensures s < |Next(w, a).value.scheds|
    ensures Next(w, a).value.scheds[s].threads.fromShared == w.scheds[s].threads.fromShared
  {
    hide Next, SchedInv;
    Borrowing(w, a);
    assert BorrowingStep(w, a, s, w.scheds[s], Next(w, a).value.scheds[s]);
    assert SchedInv(w.scheds[s]);
    NotGiving(w.scheds[s]);
  }

  lemma NotGiving(x: Sched)
    requires SchedInv(x) && x.threads.starved
    ensures !x.pc.Giving? && !x.pc.Returned()
  {
  }

  lemma LentTo(w: World, s: Sid)
    requires Inv(w) && w.pool.Balanced() && s < |w.scheds| && w.scheds[s].threads.starved
    requires w.scheds[s].threads.fromShared > 0 && |w.pool.idle| > 0
    ensures w.pool.maxCount >= 2
  {
    hide SchedInv;
    LentToGiver(w, s);
    StarvedIsNotReturning(w.scheds[s]);
  }

  /** While the pool is exhausted and a scheduler could borrow more, all together could. */
  lemma ExhaustedBelowMax(w: World, s: Sid)
    requires Inv(w) && w.pool.Balanced() && w.pool.Exhausted() && s < |w.scheds| && w.scheds[s].pc.Allocating?
    ensures w.pool.maxCount - w.scheds[s].threads.fromShared <= SumMax(w.scheds) - w.scheds[s].threads.maxFromShared
  {
    hide SchedInv, SumMax, SumLent;
    LentBounds(w, s);
  }

  lemma {:induction false} HungryRun(w: World, run: seq<Action>)
    requires Inv(w) && Hungry(w) && NoResize(run) && Exec(w, run).Some?
    ensures Hungry(Exec(w, run).value) && SameMakes(w, Exec(w, run).value)
    ensures Exec(w, run).value.pool.maxCount == w.pool.maxCount
    decreases |run|
  {
    hide Inv, Next, Hungry;
    if |run| > 0 {
      NextKeeps(w, run[0]);
      HungryKept(w, run[0]);
      Borrowing(w, run[0]);
      HungryRun(Next(w, run[0]).value, run[1..]);
    }
  }

  lemma InitHungry(start: World)
    requires Init(start)
    ensures Hungry(start)
  {
  }

  // ---------------------------------------------------------------- what a deadlock takes

  /** How the schedulers and the pool must have been set up for `a` and `b` to get stuck. */
  ghost predicate CanDeadlock(start: World, a: Sid, b: Sid) {
    && a != b && a < |start.scheds| && b < |start.scheds|
    && start.scheds[a].threads.maxFromShared >= 1 && start.scheds[b].threads.maxFromShared >= 2
    && 2 <= start.pool.maxCount < SumMax(start.scheds)
  }

  /** `a` waits for the mutex of `b`, which `b` holds while it waits, in StopStarvation, for
      `a` to clear its starved flag. */
  ghost predicate Deadlocked(w: World, a: Sid, b: Sid) {
    && a < |w.scheds| && b < |w.scheds|
    && w.scheds[a].pc == Handing(b)
    && w.scheds[b].pc.Unstarving? && w.scheds[b].threads.starved && b !in w.pool.starving
  }

  lemma LeavingHasBorrowed(x: Sched)
    requires SchedInv(x) && x.pc.Leaving()
    ensures 0 < x.threads.fromShared <= x.threads.maxFromShared
  {
  }

  /** A starved scheduler could still borrow. */
  ghost predicate StarvedHaveRoom(w: World) {
    forall s: Sid :: s < |w.scheds| && w.scheds[s].threads.starved ==>
      w.scheds[s].threads.fromShared < w.scheds[s].threads.maxFromShared
  }

  lemma {:induction false} RoomRun(w: World, run: seq<Action>)
    requires Inv(w) && StarvedHaveRoom(w) && Exec(w, run).Some?
    ensures StarvedHaveRoom(Exec(w, run).value) && SameMakes(w, Exec(w, run).value)
    decreases |run|
  {
    hide Inv, Next;
    if |run| > 0 {
      var w' := Next(w, run[0]).value;
      NextKeeps(w, run[0]);
      Borrowing(w, run[0]);
      forall s: Sid | s < |w'.scheds| && w'.scheds[s].threads.starved
        ensures w'.scheds[s].threads.fromShared < w'.scheds[s].threads.maxFromShared
      {
        assert BorrowingStep(w, run[0], s, w.scheds[s], w'.scheds[s]);
      }
      RoomRun(w', run[1..]);
    }
  }

  /** Whatever happens to the size of the pool, two schedulers get stuck only if the one that
      waits may borrow a thread and the one that spins two. */
  lemma DeadlockTakesTwo(w: World, start: World, run: seq<Action>, a: Sid, b: Sid)
    requires Reached(w, start, run) && Deadlocked(w, a, b)
    ensures a != b && a < |start.scheds| && b < |start.scheds|
    ensures start.scheds[a].threads.maxFromShared >= 1 && start.scheds[b].threads.maxFromShared >= 2
  {
    InitHungry(start);
    hide Exec, Init, SchedInv;
    ReachedInv(w, start, run);
    InitKeeps(start);
    RoomRun(start, run);
    assert SchedInv(w.scheds[a]) && SchedInv(w.scheds[b]);
    LeavingHasBorrowed(w.scheds[a]);
    LeavingHasBorrowed(w.scheds[b]);
    assert SameMake(start.scheds[a], w.scheds[a]) && SameMake(start.scheds[b], w.scheds[b]);
  }

  /** In a run that leaves the size of the pool alone, two schedulers get stuck only if the one
      that waits may borrow a thread, the one that spins two, and the pool has at least two
      threads but fewer than all together may borrow. */
  lemma DeadlockTakes(w: World, start: World, run: seq<Action>, a: Sid, b: Sid)
    requires Reached(w, start, run) && NoResize(run) && Deadlocked(w, a, b)
    ensures CanDeadlock(start, a, b)
  {
    hide Exec, SumMax, Init, SchedInv;
    ReachedInv(w, start, run);
    InitHungry(start);
    InitKeeps(start);
    HungryRun(start, run);
    assert SchedInv(w.scheds[a]) && SchedInv(w.scheds[b]);
    LeavingHasBorrowed(w.scheds[a]);
    LeavingHasBorrowed(w.scheds[b]);
    assert SameMake(start.scheds[a], w.scheds[a]) && SameMake(start.scheds[b], w.scheds[b]);
    SumMaxSame(start.scheds, w.scheds);
  }

  /** In such a run nobody starves, and so nobody gets stuck, if the pool has as many threads as
      all schedulers together may borrow. */
  lemma NobodyStarves(w: World, start: World, run: seq<Action>, s: Sid)
    requires Reached(w, start, run) && NoResize(run) && s < |w.scheds|
    requires SumMax(start.scheds) <= start.pool.maxCount
    ensures !w.scheds[s].threads.starved
  {
    hide Exec, SumMax, Init, Inv;
    InitHungry(start);
    InitKeeps(start);
    HungryRun(start, run);
    SumMaxSame(start.scheds, w.scheds);
  }

  // ---------------------------------------------------------------- what stranded work takes

  /** The pool has more threads than all schedulers but `s` may borrow. */
  ghost predicate AlwaysOneLeft(w: World, s: Sid) {
    && s < |w.scheds| && w.scheds[s].threads.maxFromShared > 0
    && w.pool.maxCount > SumMax(w.scheds) - w.scheds[s].threads.maxFromShared
  }

  /** Then `s` starves only while it holds a thread, and has one running for its jobs. */
  ghost predicate Served(x: Sched) {
    && (x.threads.starved ==> x.threads.fromShared > 0)
    && (x.threads.stopCount == 0 && x.queue.jobs != [] ==> x.threads.runningCount > 0 || x.pc.Allocating?)
  }

  /** Without a running thread nothing is borrowed, so something is unused. */
  lemma NothingRunning(x: Sched)
    requires SchedInv(x) && x.threads.runningCount <= 0 && x.threads.maxFromShared > 0
    ensures x.threads.fromShared == 0 && x.threads.unusedCount > 0 && x.Lent() == 0 && !x.pc.Leaving()
  {
  }

  lemma SectionFacts(x: Sched)
    requires SchedInv(x)
    ensures x.threads.stopCount >= 0
    ensures x.threads.stopCount == 0 && x.pc.Leaving() ==> x.queue.jobs == []
    ensures x.pc.Returned() || x.pc.Giving? ==> !x.threads.starved
    ensures x.pc.Free? ==> |x.threads.running| == x.threads.runningCount
    ensures x.pc.Registering? || x.pc.Allocating? ==> (x.pc.k.Serving? <==> x.threads.stopCount != 0)
    ensures x.pc.Allocating? && x.threads.suspendedCount > 0 ==> |x.threads.suspended| > 0
    ensures x.threads.suspendedCount >= 0 && x.threads.yetToCreate >= 0 && x.threads.runningCount >= 0
  {
  }

  lemma AskingServed(x: Sched, job: Job)
    requires SchedInv(x) && x.pc.Free? && x.threads.maxFromShared > 0 && Served(x)
    ensures Served(Enqueue(x, job)) && (x.threads.stopCount > 0 ==> Served(ResumeCall(x)))
  {
    hide SchedInv;
    SectionFacts(x);
    if x.threads.runningCount <= 0 {
      NothingRunning(x);
    }
  }

  lemma TakingServed(x: Sched, watermark: nat, oldest: bool)
    requires SchedInv(x) && x.pc.Free? && Served(x)
    ensures Served(RemoveJobs(x, watermark, oldest)) && Served(WaitTurn(x))
  {
    hide SchedInv, TakeOff;
  }

  lemma PlainServed(w: World, a: Action)
    requires Inv(w) && Next(w, a).Some? && Plain(a) && w.scheds[a.s].threads.maxFromShared > 0 && Served(w.scheds[a.s])
    ensures Served(Next(w, a).value.scheds[a.s])
  {
    hide Places.Exact, Hunger.Exact, PoolInv, SchedInv, Enqueue, ResumeCall, RemoveJobs, WaitTurn;
    var x := w.scheds[a.s];
    assert SchedInv(x);
    SectionFacts(x);
    match a
    case DoEnqueue(_, job) => AskingServed(x, job);
    case DoResume(_) => AskingServed(x, Job(0, false));
    case DoRemove(_, n, o) => TakingServed(x, n, o);
    case DoWait(_) => TakingServed(x, 0, false);
    case _ =>
  }

  lemma AllocateServed(w: World, s: Sid, anew: Tid)
    requires Inv(w) && w.pool.Balanced() && AlwaysOneLeft(w, s) && Served(w.scheds[s])
    requires w.scheds[s].pc.Allocating? && Allocate(w, s, anew).Some?
    ensures Served(Allocate(w, s, anew).value.scheds[s])
  {
    hide Places.Exact, Hunger.Exact, PoolInv, SchedInv, SumMax, World.PoolFree;
    var x := w.scheds[s];
    assert SchedInv(x);
    SectionFacts(x);
    if w.pool.Exhausted() {
      ExhaustedBelowMax(w, s);
    }
    if x.threads.runningCount <= 0 {
      NothingRunning(x);
    }
  }

  lemma OtherServed(w: World, a: Action, s: Sid)
    requires Inv(w) && Next(w, a).Some? && !Plain(a) && !a.DoAllocate? && s < |w.scheds| && Served(w.scheds[s])
    ensures s < |Next(w, a).value.scheds| && Served(Next(w, a).value.scheds[s])
  {
    hide Places.Exact, Hunger.Exact, PoolInv, SchedInv, TakeOff, World.PoolFree, Allocate;
    var x := w.scheds[s];
    assert SchedInv(x);
    SectionFacts(x);
  }

  lemma ServedKept(w: World, a: Action, s: Sid)
    requires Inv(w) && w.pool.Balanced() && AlwaysOneLeft(w, s) && Served(w.scheds[s])
    requires Next(w, a).Some? && !a.DoSetCount?
    ensures AlwaysOneLeft(Next(w, a).value, s) && Served(Next(w, a).value.scheds[s])
  {
    hide Inv, SumMax, Served, World.PoolFree;
    var w' := Next(w, a).value;
    Borrowing(w, a);
    assert BorrowingStep(w, a, s, w.scheds[s], w'.scheds[s]);
    SumMaxSame(w.scheds, w'.scheds);
    if Plain(a) {
      PlainViews(w, a);
      if a.s == s {
        PlainServed(w, a);
      }
    } else if a.DoAllocate? {
      if a.s == s {
        AllocateServed(w, s, a.anew);
      }
    } else {
      OtherServed(w, a, s);
    }
  }

  lemma {:induction false} ServedRun(w: World, run: seq<Action>, s: Sid)
    requires Inv(w) && w.pool.Balanced() && AlwaysOneLeft(w, s) && Served(w.scheds[s])
    requires NoResize(run) && Exec(w, run).Some?
    ensures s < |Exec(w, run).value.scheds| && Served(Exec(w, run).value.scheds[s])
    decreases |run|
  {
    hide Inv, Next, Served, AlwaysOneLeft, Pool.Balanced;
    AtLeastOne(w, s);
    if |run| > 0 {
      NextKeeps(w, run[0]);
      BalanceKept(w, run[0]);
      ServedKept(w, run[0], s);
      AtLeastOne(Next(w, run[0]).value, s);
      ServedRun(Next(w, run[0]).value, run[1..], s);
    }
  }

  lemma AtLeastOne(w: World, s: Sid)
    requires AlwaysOneLeft(w, s)
    ensures s < |w.scheds|
  {
  }

  /** Jobs wait, the scheduler is not stopped, and nobody runs for it. */
  predicate Stranded(x: Sched) {
    x.pc.Free? && x.threads.stopCount == 0 && x.queue.jobs != [] && x.threads.running == []
  }

  /** How a scheduler and the pool must have been set up for its work to be stranded. */
  ghost predicate CanStrand(start: World, s: Sid) {
    && s < |start.scheds| && start.scheds[s].threadCount == 0
    && (start.scheds[s].threads.maxFromShared == 0
        || start.pool.maxCount <= SumMax(start.scheds) - start.scheds[s].threads.maxFromShared)
  }

  /** In a run that leaves the size of the pool alone, work is stranded only if the scheduler has
      no private thread and the pool no more threads than all others may borrow. */
  lemma StrandingTakes(w: World, start: World, run: seq<Action>, s: Sid)
    requires Reached(w, start, run) && NoResize(run) && s < |w.scheds| && Stranded(w.scheds[s])
    ensures CanStrand(start, s)
  {
    hide Exec, SumMax, Inv;
    ReachedInv(w, start, run);
    InitHungry(start);
    InitKeeps(start);
    HungryRun(start, run);
    assert SameMake(start.scheds[s], w.scheds[s]);
    if w.scheds[s].threadCount > 0 {
      NoStrandedWork(w, start, run, s);
    }
    if start.scheds[s].threads.maxFromShared > 0
       && start.pool.maxCount > SumMax(start.scheds) - start.scheds[s].threads.maxFromShared {
      ServedRun(start, run, s);
      StrandedNotServed(w, s);
    }
  }

  lemma StrandedNotServed(w: World, s: Sid)
    requires Inv(w) && s < |w.scheds| && Stranded(w.scheds[s])
    ensures !Served(w.scheds[s])
  {
    hide Places.Exact, Hunger.Exact, PoolInv, SchedInv;
    assert SchedInv(w.scheds[s]);
    SectionFacts(w.scheds[s]);
  }
}
