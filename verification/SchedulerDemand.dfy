/** When schedulers take on threads, and when they have enough: what the backlog asks for is
    written out here in terms of the queue and the counters. */
module SchedulerDemand {
  import opened SchedulerModel
  import opened SchedulerWorld
  import opened SchedulerRuns
  import opened SchedulerTheorems
  import opened SchedulerCapacity

  /** Schedule asks for one more thread: always if it is aggressive, and else for more than two
      jobs per running thread. */
  predicate ScheduleAsks(x: Sched) {
    && x.threads.stopCount == 0
    && (x.aggressive || (|x.queue.jobs| > 2 * x.threads.runningCount && x.threads.unusedCount > 0))
  }

  /** Resume asks for threads: for more than four jobs per running thread, or more than one if it is
      aggressive. */
  predicate ResumeAsks(x: Sched) {
    && x.threads.stopCount == 0
    && ((x.aggressive && |x.queue.jobs| > x.threads.runningCount)
        || (|x.queue.jobs| > 4 * x.threads.runningCount && x.threads.unusedCount > 0))
  }

  /** A notified scheduler that is stopped borrows for more than two jobs per running thread. */
  predicate NoticeAsks(x: Sched) {
    && x.threads.stopCount != 0 && |x.queue.jobs| > 2 * x.threads.runningCount
    && x.threads.suspendedCount == 0 && x.threads.yetToCreate == 0
    && x.threads.fromShared < x.threads.maxFromShared
  }

  /** A section that is about to get a thread has been asked for it. */
  predicate Asked(x: Sched) {
    match x.pc
    case Allocating(AfterSchedule) => ScheduleAsks(x)
    case Allocating(InResume) => ResumeAsks(x)
    case Allocating(Serving(_)) => NoticeAsks(x)
    case _ => true
  }

  ghost predicate AllAsked(w: World) { forall s: Sid :: s < |w.scheds| ==> Asked(w.scheds[s]) }

  /** What the scheduler has is enough for its backlog, at so many jobs per running thread, or
      nothing more is to be had, or it waits for a shared thread. */
  predicate HasEnough(x: Sched, factor: nat) {
    |x.queue.jobs| <= factor * x.threads.runningCount || x.threads.unusedCount == 0 || x.threads.starved
  }

  // ---------------------------------------------------------------- threads only on demand

  lemma CallAsked(x: Sched, job: Job, watermark: nat, oldest: bool)
    requires x.pc.Free?
    ensures Asked(Enqueue(x, job)) && Asked(ResumeCall(x)) && Asked(RemoveJobs(x, watermark, oldest)) && Asked(WaitTurn(x))
  {
    hide TakeOff;
  }

  lemma PlainAsked(w: World, a: Action)
    requires Next(w, a).Some? && Plain(a) && Asked(w.scheds[a.s])
    ensures Asked(Next(w, a).value.scheds[a.s])
  {
    hide Enqueue, ResumeCall, RemoveJobs, WaitTurn;
    var x := w.scheds[a.s];
    match a
    case DoEnqueue(_, job) => CallAsked(x, job, 0, false);
    case DoResume(_) => CallAsked(x, Job(0, false), 0, false);
    case DoRemove(_, n, o) => CallAsked(x, Job(0, false), n, o);
    case DoWait(_) => CallAsked(x, Job(0, false), 0, false);
    case _ =>
  }

  /** A loop goes on while it is asked to, and with a thread more. */
  lemma LoopAsked(x: Sched, k: Cont, ok: bool)
    requires k.InResume? ==> x.threads.stopCount == 0
    ensures Asked(Continue(x, k, ok))
  {
  }

  lemma AllocateAsked(w: World, s: Sid, anew: Tid)
    requires s < |w.scheds| && w.scheds[s].pc.Allocating? && Asked(w.scheds[s]) && Allocate(w, s, anew).Some?
    ensures Asked(Allocate(w, s, anew).value.scheds[s])
  {
    hide World.PoolFree, Continue, Asked;
    var x := w.scheds[s];
    AskedToResume(x);
    LoopAsked(x.(threads := x.threads.StartPrivate(anew)), x.pc.k, true);
    LoopAsked(x.(threads := x.threads.TakeShared(w.pool.Offer(anew))), x.pc.k, true);
    LoopAsked(x, x.pc.k, false);
    if |x.threads.suspended| > 0 {
      LoopAsked(x.(threads := x.threads.WakeSuspended()), x.pc.k, true);
    }
    RegisteringAsked(x.(threads := x.threads.(starved := true), pc := Registering(x.pc.k)));
  }

  lemma AskedToResume(x: Sched)
    requires x.pc.Allocating? && Asked(x)
    ensures x.pc.k.InResume? ==> x.threads.stopCount == 0
  {
  }

  lemma RegisteringAsked(x: Sched)
    ensures !x.pc.Allocating? ==> Asked(x)
  {
  }

  lemma OtherAsked(w: World, a: Action, s: Sid)
    requires Next(w, a).Some? && !Plain(a) && !a.DoAllocate? && s < |w.scheds| && Asked(w.scheds[s])
    ensures s < |Next(w, a).value.scheds| && Asked(Next(w, a).value.scheds[s])
  {
    hide TakeOff, World.PoolFree, Allocate;
  }

  lemma AskedKept(w: World, a: Action)
    requires Next(w, a).Some? && AllAsked(w)
    ensures AllAsked(Next(w, a).value)
  {
    hide Asked, TakeOff, World.PoolFree;
    forall s: Sid | s < |Next(w, a).value.scheds| ensures Asked(Next(w, a).value.scheds[s]) {
      Borrowing(w, a);
      if Plain(a) {
        PlainViews(w, a);
        if a.s == s {
          PlainAsked(w, a);
        }
      } else if a.DoAllocate? {
        if a.s == s {
          AllocateAsked(w, s, a.anew);
        }
      } else {
        OtherAsked(w, a, s);
      }
    }
  }

  lemma {:induction false} RunAsked(w: World, run: seq<Action>)
    requires AllAsked(w) && Exec(w, run).Some?
    ensures AllAsked(Exec(w, run).value)
    decreases |run|
  {
    hide Next, AllAsked;
    if |run| > 0 {
      AskedKept(w, run[0]);
      RunAsked(Next(w, run[0]).value, run[1..]);
    }
  }

  /** Only the step that allocates lets a scheduler have more running threads. */
  lemma GrowsByAllocating(w: World, a: Action, s: Sid)
    requires Next(w, a).Some? && s < |w.scheds| && s < |Next(w, a).value.scheds|
    requires Next(w, a).value.scheds[s].threads.runningCount > w.scheds[s].threads.runningCount
    ensures a.DoAllocate? && a.s == s && w.scheds[s].pc.Allocating?
  {
    hide World.PoolFree, TakeOff;
    if Plain(a) {
      PlainRunning(w, a, s);
    } else if !a.DoAllocate? {
      OtherRunning(w, a, s);
    }
  }

  lemma PlainRunning(w: World, a: Action, s: Sid)
    requires Next(w, a).Some? && Plain(a) && s < |w.scheds|
    ensures s < |Next(w, a).value.scheds|
    ensures Next(w, a).value.scheds[s].threads.runningCount == w.scheds[s].threads.runningCount
  {
    hide TakeOff;
  }

  lemma OtherRunning(w: World, a: Action, s: Sid)
    requires Next(w, a).Some? && !Plain(a) && !a.DoAllocate? && s < |w.scheds|
    ensures s < |Next(w, a).value.scheds|
    ensures Next(w, a).value.scheds[s].threads.runningCount <= w.scheds[s].threads.runningCount
  {
    hide TakeOff, World.PoolFree, Allocate;
  }

  /** For every run: a scheduler takes on a thread only when the backlog asks for it. */
  lemma ThreadsOnDemand(w: World, start: World, run: seq<Action>, a: Action, s: Sid)
    requires Reached(w, start, run) && Next(w, a).Some? && s < |w.scheds| && s < |Next(w, a).value.scheds|
    requires Next(w, a).value.scheds[s].threads.runningCount > w.scheds[s].threads.runningCount
    ensures ScheduleAsks(w.scheds[s]) || ResumeAsks(w.scheds[s]) || NoticeAsks(w.scheds[s])
  {
    assert AllAsked(start) by { hide Exec; }
    RunAsked(start, run);
    GrowsByAllocating(w, a, s);
    assert Asked(w.scheds[s]);
    hide Next, Exec, Init, ScheduleAsks, ResumeAsks, NoticeAsks;
  }

  // ---------------------------------------------------------------- and as many as it takes

  /** What the invariant says of a scheduler that has nothing more to start. */
  lemma NothingUnused(x: Sched)
    requires SchedInv(x) && x.threads.NoneIdle() && x.threads.fromShared >= x.threads.maxFromShared
    ensures x.threads.unusedCount == 0
  {
  }

  lemma UnusedNonNegative(x: Sched)
    requires SchedInv(x)
    ensures x.threads.unusedCount >= 0 && x.threads.suspendedCount >= 0 && x.threads.yetToCreate >= 0
  {
  }

  lemma LoopEnds(x: Sched)
    requires x.threads.unusedCount >= 0 && x.threads.stopCount == 0 && Continue(x, InResume, true).pc.Free?
    ensures HasEnough(x, 4) && (x.aggressive ==> HasEnough(x, 1))
  {
  }

  lemma AllocateEnds(w: World, s: Sid, anew: Tid)
    requires s < |w.scheds| && SchedInv(w.scheds[s]) && w.scheds[s].pc == Allocating(InResume)
    requires Allocate(w, s, anew).Some? && Allocate(w, s, anew).value.scheds[s].pc.Free?
    requires SchedInv(Allocate(w, s, anew).value.scheds[s]) && w.scheds[s].threads.stopCount == 0
    ensures var x' := Allocate(w, s, anew).value.scheds[s]; HasEnough(x', 4) && (x'.aggressive ==> HasEnough(x', 1))
  {
    hide SchedInv, World.PoolFree;
    var x, x' := w.scheds[s], Allocate(w, s, anew).value.scheds[s];
    UnusedNonNegative(x);
    UnusedNonNegative(x');
    if x.threads.NoneIdle() && x.threads.fromShared >= x.threads.maxFromShared {
      NothingUnused(x);
    }
  }

  /** A section of Resume that takes back the last Stop ends with threads for all of the backlog: for
      four jobs each, and if it is aggressive for one each; or else none is left to start, or the
      scheduler waits for a shared one. */
  lemma ResumeGetsEnough(w: World, start: World, run: seq<Action>, a: Action, s: Sid)
    requires Reached(w, start, run) && Next(w, a).Some? && s < |w.scheds| && s < |Next(w, a).value.scheds|
    requires Next(w, a).value.scheds[s].pc.Free?
    requires || w.scheds[s].pc == Allocating(InResume) || w.scheds[s].pc == Registering(InResume)
             || (a == DoResume(s) && w.scheds[s].threads.stopCount == 1)
    ensures var x := Next(w, a).value.scheds[s]; HasEnough(x, 4) && (x.aggressive ==> HasEnough(x, 1))
  {
    ReachedInv(w, start, run);
    assert AllAsked(start) by { hide Exec; }
    RunAsked(start, run);
    hide Exec, Init;
    NextKeeps(w, a);
    assert Asked(w.scheds[s]);
    ResumeStepEnds(w, a, s);
  }

  lemma ResumeStepEnds(w: World, a: Action, s: Sid)
    requires Inv(w) && Next(w, a).Some? && Inv(Next(w, a).value)
    requires s < |w.scheds| && s < |Next(w, a).value.scheds| && Asked(w.scheds[s])
    requires Next(w, a).value.scheds[s].pc.Free?
    requires || w.scheds[s].pc == Allocating(InResume) || w.scheds[s].pc == Registering(InResume)
             || (a == DoResume(s) && w.scheds[s].threads.stopCount == 1)
    ensures var x := Next(w, a).value.scheds[s]; HasEnough(x, 4) && (x.aggressive ==> HasEnough(x, 1))
  {
    var x := w.scheds[s];
    InvOf(w, s);
    InvOf(Next(w, a).value, s);
    SectionStays(w, a, s);
    if x.pc == Allocating(InResume) {
      AskedToResume(x);
      hide Inv, SchedInv, World.PoolFree, TakeOff, Asked, HasEnough, Allocate;
      AllocateEnds(w, s, a.anew);
    } else if x.pc == Registering(InResume) {
      hide Inv, SchedInv, World.PoolFree, TakeOff, Asked, Next;
    } else {
      hide Inv, World.PoolFree, TakeOff, Asked;
      ResumeCallEnds(w, s);
    }
  }

  lemma ResumeCallEnds(w: World, s: Sid)
    requires s < |w.scheds| && SchedInv(w.scheds[s]) && w.scheds[s].threads.stopCount == 1
    requires Next(w, DoResume(s)).Some? && Next(w, DoResume(s)).value.scheds[s].pc.Free?
    ensures var x := Next(w, DoResume(s)).value.scheds[s]; HasEnough(x, 4) && (x.aggressive ==> HasEnough(x, 1))
  {
    var x := w.scheds[s];
    UnusedNonNegative(x);
    hide SchedInv;
    LoopEnds(x.(threads := x.threads.(stopCount := 0)));
  }

  /** Nobody else gets into a section that is about to get a thread or to register. */
  lemma SectionStays(w: World, a: Action, s: Sid)
    requires Next(w, a).Some? && s < |w.scheds| && s < |Next(w, a).value.scheds| && Next(w, a).value.scheds[s].pc.Free?
    ensures w.scheds[s].pc.Allocating? ==> a.DoAllocate? && a.s == s
    ensures w.scheds[s].pc.Registering? ==>
              a == DoRegister(s) && Next(w, a).value.scheds[s].threads == w.scheds[s].threads
  {
    if a.DoAllocate? && a.s != s {
      AllocateElsewhere(w, a.s, a.anew, s);
    }
    hide TakeOff, World.PoolFree, Allocate;
  }

  lemma AllocateElsewhere(w: World, r: Sid, anew: Tid, s: Sid)
    requires r < |w.scheds| && s < |w.scheds| && r != s && w.scheds[r].pc.Allocating? && Allocate(w, r, anew).Some?
    ensures s < |Allocate(w, r, anew).value.scheds| && Allocate(w, r, anew).value.scheds[s] == w.scheds[s]
  {
    hide World.PoolFree;
  }

  lemma InvOf(w: World, s: Sid)
    requires Inv(w) && s < |w.scheds|
    ensures SchedInv(w.scheds[s])
    ensures w.scheds[s].pc.Registering? ==> w.scheds[s].threads.starved
  {
    hide SchedInv, Places.Exact, NoDup;
    var h := HungerOf(w);
    assert h.registering[s] == w.scheds[s].pc.Registering? && h.starved[s] == w.scheds[s].threads.starved;
  }

  /** A section of Schedule goes on to get a thread exactly if the backlog asks for one. */
  lemma ScheduleIsExact(w: World, s: Sid, job: Job)
    requires Next(w, DoEnqueue(s, job)).Some?
    ensures s < |Next(w, DoEnqueue(s, job)).value.scheds|
    ensures var x := Next(w, DoEnqueue(s, job)).value.scheds[s];
            x.pc == (if ScheduleAsks(x) then Allocating(AfterSchedule) else Free)
  {
  }

  /** And then has one thread more, unless nothing is left to start or to borrow: then it waits for
      a shared one, if it may have more of them. */
  lemma ScheduleGetsOne(w: World, s: Sid, anew: Tid)
    requires s < |w.scheds| && SchedInv(w.scheds[s]) && w.scheds[s].pc == Allocating(AfterSchedule)
    requires Next(w, DoAllocate(s, anew)).Some?
    ensures s < |Next(w, DoAllocate(s, anew)).value.scheds|
    ensures var x, x' := w.scheds[s], Next(w, DoAllocate(s, anew)).value.scheds[s];
            var borrows := x.threads.fromShared < x.threads.maxFromShared && !x.threads.starved;
            && x'.threads.runningCount == x.threads.runningCount +
                 (if x.threads.suspended != [] || x.threads.yetToCreate > 0
                     || (borrows && (w.pool.idle != [] || w.pool.yetToCreate != 0)) then 1 else 0)
            && (x'.threads.runningCount == x.threads.runningCount ==>
                  x'.threads.unusedCount == 0 || x'.threads.starved)
  {
    var x := w.scheds[s];
    UnusedNonNegative(x);
    SuspendedCounted(x);
    if x.threads.NoneIdle() && x.threads.fromShared >= x.threads.maxFromShared {
      NothingUnused(x);
    }
    hide SchedInv, World.PoolFree;
  }

  lemma SuspendedCounted(x: Sched)
    requires SchedInv(x)
    ensures |x.threads.suspended| == x.threads.suspendedCount
  {
  }

  /** A notified scheduler that is stopped ends with a thread for two jobs each, or none is left that
      it may borrow, or it waits again. */
  lemma NoticeGetsEnough(w: World, start: World, run: seq<Action>, a: Action, s: Sid)
    requires Reached(w, start, run) && Next(w, a).Some? && s < |w.scheds| && s < |Next(w, a).value.scheds|
    requires Next(w, a).value.scheds[s].pc.Free? && Next(w, a).value.scheds[s].threads.stopCount != 0
    requires || (w.scheds[s].pc.Allocating? && w.scheds[s].pc.k.Serving?) || (w.scheds[s].pc.Registering? && w.scheds[s].pc.k.Serving?)
             || (a.DoServe? && a.s < |w.scheds| && w.scheds[a.s].pc == Handing(s))
    ensures var x := Next(w, a).value.scheds[s]; !NoticeAsks(x) || x.threads.starved
  {
    ReachedInv(w, start, run);
    InvOf(w, s);
    SectionStays(w, a, s);
    hide Exec, Init, Inv, SchedInv, World.PoolFree, TakeOff;
    if w.scheds[s].pc.Allocating? {
      NoticeAllocates(w, s, a.anew);
    } else if w.scheds[s].pc.Free? {
      NoticeServed(w, a, s);
    }
  }

  lemma NoticeAllocates(w: World, s: Sid, anew: Tid)
    requires s < |w.scheds| && w.scheds[s].pc.Allocating? && w.scheds[s].pc.k.Serving?
    requires Allocate(w, s, anew).Some? && Allocate(w, s, anew).value.scheds[s].pc.Free?
    ensures var x := Allocate(w, s, anew).value.scheds[s]; !NoticeAsks(x) || x.threads.starved
  {
    hide World.PoolFree;
  }

  lemma NoticeServed(w: World, a: Action, s: Sid)
    requires Next(w, a).Some? && a.DoServe? && s < |w.scheds| && w.scheds[a.s].pc == Handing(s)
    requires s < |Next(w, a).value.scheds| && Next(w, a).value.scheds[s].pc.Free?
    ensures !NoticeAsks(Next(w, a).value.scheds[s])
  {
  }
}
