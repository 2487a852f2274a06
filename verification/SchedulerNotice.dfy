/** What comes of the notification that a shared thread may be available. ThreadAvailable clears
    the starved flag and then borrows only for a stopped scheduler; one that is not stopped is let
    down: its jobs keep waiting, and nobody is going to notify it again. */
module SchedulerNotice {
  import opened SchedulerModel
  import opened SharedPool
  import opened SchedulerWorld
  import opened SchedulerRuns
  import opened SchedulerTheorems
  import opened SchedulerCapacity
  import opened SchedulerReach
  import opened SchedulerExact

  /** Jobs wait, nobody runs for them, and the scheduler is not registered for a thread either. */
  predicate Unheard(x: Sched) { Stranded(x) && !x.threads.starved }

  /** The step notifies `s`, which is not stopped, while nobody runs for its waiting jobs. */
  predicate LetsDown(w: World, a: Action, s: Sid)
    requires s < |w.scheds|
  {
    a.DoServe? && a.s < |w.scheds| && w.scheds[a.s].pc == Handing(s) && Stranded(w.scheds[s])
  }

  // ---------------------------------------------------------------- which steps do it

  lemma ScheduleHeard(x: Sched, job: Job)
    requires SchedInv(x) && x.pc.Free? && x.threads.maxFromShared > 0
    ensures !Unheard(Enqueue(x, job)) && (x.threads.stopCount > 0 ==> !Unheard(ResumeCall(x)))
  {
    hide SchedInv;
    SectionFacts(x);
    if x.threads.runningCount <= 0 {
      NothingRunning(x);
    }
  }

  lemma TakingHeard(x: Sched, watermark: nat, oldest: bool)
    ensures Unheard(RemoveJobs(x, watermark, oldest)) <==> Unheard(x) && watermark > 0
    ensures x.pc.Free? ==> (Unheard(WaitTurn(x)) <==> Unheard(x))
  {
    LastJobTaken(x, watermark, oldest);
    hide TakeOff;
  }

  /** What a call on the scheduler itself makes of it. */
  predicate CallHears(a: Action) {
    a.DoEnqueue? || a.DoStop? || (a.DoRemove? && a.watermark == 0)
  }

  lemma PlainHeard(w: World, a: Action)
    requires Inv(w) && Next(w, a).Some? && Plain(a) && w.scheds[a.s].threads.maxFromShared > 0
    ensures Unheard(Next(w, a).value.scheds[a.s]) <==> Unheard(w.scheds[a.s]) && !CallHears(a)
  {
    hide Places.Exact, Hunger.Exact, PoolInv, SchedInv, Enqueue, ResumeCall, RemoveJobs, WaitTurn;
    var x := w.scheds[a.s];
    assert SchedInv(x);
    SectionFacts(x);
    match a
    case DoEnqueue(_, job) => ScheduleHeard(x, job);
    case DoResume(_) => ScheduleHeard(x, Job(0, false));
    case DoRemove(_, n, o) => TakingHeard(x, n, o);
    case DoWait(_) => TakingHeard(x, 0, false);
    case _ =>
  }

  lemma AllocateHeard(w: World, s: Sid, anew: Tid)
    requires Inv(w) && s < |w.scheds| && w.scheds[s].threads.maxFromShared > 0
    requires w.scheds[s].pc.Allocating? && Allocate(w, s, anew).Some?
    ensures !Unheard(Allocate(w, s, anew).value.scheds[s])
  {
    hide Places.Exact, Hunger.Exact, PoolInv, SchedInv, World.PoolFree;
    var x := w.scheds[s];
    assert SchedInv(x);
    SectionFacts(x);
    RunningListed(x);
    if x.threads.runningCount <= 0 {
      NothingRunning(x);
    }
  }

  lemma RunningListed(x: Sched)
    requires SchedInv(x) && !x.pc.Leaving()
    ensures |x.threads.running| == x.threads.runningCount
  {
  }

  lemma RegisteringIsStarved(w: World, s: Sid)
    requires Inv(w) && s < |w.scheds| && w.scheds[s].pc.Registering?
    ensures w.scheds[s].threads.starved
  {
    hide SchedInv, Places.Exact, NoDup;
    var h := HungerOf(w);
    assert h.registering[s] && h.starved[s] == w.scheds[s].threads.starved;
  }

  lemma ServeHeard(w: World, a: Action, s: Sid)
    requires Next(w, a).Some? && a.DoServe? && s < |w.scheds|
    requires w.scheds[a.s].pc.to < |w.scheds| ==> w.scheds[w.scheds[a.s].pc.to].threads.starved
    ensures s < |Next(w, a).value.scheds|
    ensures Unheard(Next(w, a).value.scheds[s]) <==> Unheard(w.scheds[s]) || LetsDown(w, a, s)
  {
  }

  lemma GiverHeard(w: World, a: Action, s: Sid)
    requires AllSchedInv(w) && Next(w, a).Some? && s < |w.scheds|
    requires a.DoRegister? || a.DoUnstarve? || a.DoGive? || a.DoSelect? || a.DoAssign? || a.DoSetCount?
    requires w.scheds[s].pc.Registering? ==> w.scheds[s].threads.starved
    ensures s < |Next(w, a).value.scheds|
    ensures Unheard(Next(w, a).value.scheds[s]) <==> Unheard(w.scheds[s])
  {
    hide SchedInv, World.PoolFree;
    assert SchedInv(w.scheds[s]);
    SectionFacts(w.scheds[s]);
  }

  lemma NotifiedIsStarved(w: World, a: Action)
    requires Inv(w) && a.s < |w.scheds| && w.scheds[a.s].pc.Handing?
    ensures w.scheds[a.s].pc.to < |w.scheds| ==> w.scheds[w.scheds[a.s].pc.to].threads.starved
  {
    StarvingFacts(w);
    hide Inv;
  }

  lemma AllAreSound(w: World)
    requires Inv(w)
    ensures AllSchedInv(w)
  {
    hide AllSchedInv;
  }

  lemma UnheardIsFree(x: Sched)
    ensures Unheard(x) ==> x.pc.Free?
  {
  }

  /** A step leaves a scheduler unheard if and only if it already was, and the step is no call
      on the scheduler itself that changes that, or the step lets it down. */
  lemma UnheardByStep(w: World, a: Action, s: Sid)
    requires Inv(w) && Next(w, a).Some? && s < |w.scheds| && w.scheds[s].threads.maxFromShared > 0
    ensures s < |Next(w, a).value.scheds|
    ensures Unheard(Next(w, a).value.scheds[s]) <==>
              (Unheard(w.scheds[s]) && !(a.s == s && CallHears(a))) || LetsDown(w, a, s)
  {
    hide Inv, Unheard, World.PoolFree, TakeOff;
    if Plain(a) {
      PlainViews(w, a);
      if a.s == s {
        PlainHeard(w, a);
      }
    } else if a.DoAllocate? {
      if a.s == s {
        AllocateHeard(w, s, a.anew);
        UnheardIsFree(w.scheds[s]);
      }
    } else if a.DoServe? {
      NotifiedIsStarved(w, a);
      ServeHeard(w, a, s);
    } else {
      AllAreSound(w);
      if w.scheds[s].pc.Registering? {
        RegisteringIsStarved(w, s);
      }
      GiverHeard(w, a, s);
    }
  }

  // ---------------------------------------------------------------- over runs

  /** No step of a run lets `s` down. */
  ghost predicate NeverLetDown(w: World, run: seq<Action>, s: Sid)
    requires Exec(w, run).Some? && s < |w.scheds|
    decreases |run|
  {
    |run| > 0 ==>
      && !LetsDown(w, run[0], s)
      && s < |Next(w, run[0]).value.scheds| && NeverLetDown(Next(w, run[0]).value, run[1..], s)
  }

  /** At no moment of a run is `s` unheard. */
  ghost predicate HeardThroughout(w: World, run: seq<Action>, s: Sid)
    requires Exec(w, run).Some? && s < |w.scheds|
    decreases |run|
  {
    && !Unheard(w.scheds[s])
    && (|run| > 0 ==> s < |Next(w, run[0]).value.scheds| && HeardThroughout(Next(w, run[0]).value, run[1..], s))
  }

  /** For every run: a scheduler that may borrow is heard at every moment if and only if no step
      notifies it while it is not stopped and nobody runs for its waiting jobs. */
  lemma {:induction false} HearingIsExact(w: World, run: seq<Action>, s: Sid)
    requires Inv(w) && Exec(w, run).Some? && s < |w.scheds| && !Unheard(w.scheds[s])
    requires w.scheds[s].threads.maxFromShared > 0
    ensures HeardThroughout(w, run, s) <==> NeverLetDown(w, run, s)
    decreases |run|
  {
    hide Inv, Next, Unheard, LetsDown;
    if |run| > 0 {
      var w' := Next(w, run[0]).value;
      NextKeeps(w, run[0]);
      UnheardByStep(w, run[0], s);
      Borrowing(w, run[0]);
      assert BorrowingStep(w, run[0], s, w.scheds[s], w'.scheds[s]);
      if !Unheard(w'.scheds[s]) {
        HearingIsExact(w', run[1..], s);
      }
    }
  }

  /** Only another scheduler that may borrow can let one down. */
  lemma {:induction false} LetDownByAnother(w: World, run: seq<Action>, s: Sid) returns (a: Sid)
    requires Inv(w) && Exec(w, run).Some? && s < |w.scheds| && !Unheard(w.scheds[s])
    requires w.scheds[s].threads.maxFromShared > 0
    requires s < |Exec(w, run).value.scheds| && Unheard(Exec(w, run).value.scheds[s])
    ensures a != s && a < |w.scheds| && w.scheds[a].threads.maxFromShared > 0
    decreases |run|
  {
    hide Inv, Next, Unheard, LetsDown;
    var w' := Next(w, run[0]).value;
    NextKeeps(w, run[0]);
    UnheardByStep(w, run[0], s);
    Borrowing(w, run[0]);
    assert BorrowingStep(w, run[0], s, w.scheds[s], w'.scheds[s]);
    if Unheard(w'.scheds[s]) {
      a := run[0].s;
      NotifierMayBorrow(w, run[0], s);
    } else {
      a := LetDownByAnother(w', run[1..], s);
      assert BorrowingStep(w, run[0], a, w.scheds[a], w'.scheds[a]);
    }
  }

  lemma NotifierMayBorrow(w: World, a: Action, s: Sid)
    requires Inv(w) && s < |w.scheds| && LetsDown(w, a, s)
    ensures a.s < |w.scheds| && a.s != s && w.scheds[a.s].threads.maxFromShared > 0
  {
    hide SchedInv, PoolInv, Places.Exact, Hunger.Exact;
    assert SchedInv(w.scheds[a.s]);
    LeavingHasBorrowed(w.scheds[a.s]);
  }

  // ---------------------------------------------------------------- abandoned work

  /** Work waits although a shared thread is idle and the scheduler may borrow it; and nobody is
      going to tell the scheduler so. */
  ghost predicate Abandoned(w: World, s: Sid) {
    && s < |w.scheds| && Unheard(w.scheds[s])
    && w.scheds[s].threads.fromShared < w.scheds[s].threads.maxFromShared
    && |w.pool.idle| > 0 && s !in w.pool.starving
  }

  /** Nobody is inside a section. */
  predicate Settled(w: World) { forall r: Sid :: r < |w.scheds| ==> w.scheds[r].pc.Free? }

  /** How the schedulers and the pool must have been set up for work of `s` to be abandoned. */
  ghost predicate CanAbandon(start: World, s: Sid) {
    && s < |start.scheds| && start.scheds[s].threadCount == 0 && start.scheds[s].threads.maxFromShared > 0
    && 1 <= start.pool.maxCount <= SumMax(start.scheds) - start.scheds[s].threads.maxFromShared
  }

  /** The notification of `s` by `a`, to its end. */
  lemma NotifyInVain(w: World, a: Sid, s: Sid) returns (run: seq<Action>, w': World)
    requires a < |w.scheds| && s < |w.scheds| && w.scheds[a].pc == Handing(s) && w.pool.starving == [] && w.PoolFree()
    requires Stranded(w.scheds[s])
    ensures LeadsFixed(w, run, w') && w'.pool == w.pool && |w'.scheds| == |w.scheds|
    ensures w'.scheds[s] == w.scheds[s].(threads := w.scheds[s].threads.(starved := false))
    ensures w'.scheds[a].pc.Free? && forall r: Sid :: r < |w.scheds| && r != a && r != s ==> w'.scheds[r] == w.scheds[r]
  {
    hide LeadsFixed, World.PoolFree;
    var y := w.scheds[s].(threads := w.scheds[s].threads.(starved := false));
    var w1 := Put(Put(w, a, w.scheds[a].(pc := AwaitingService(s))), s, y);
    var w2 := Put(w1, a, w1.scheds[a].(pc := Notifying));
    assert Continue(y, Serving(a), true) == y;
    One(w, DoServe(a), w1);
    One(w1, DoReturn(a), w2);
    assert w2.PoolFree() by { StillFree(w, w2); }
    w' := Put(w2, a, GiveDone(w2.scheds[a]));
    One(w2, DoSelect(a), w');
    Then(w, [DoServe(a)], w1, [DoReturn(a)], w2);
    Then(w, [DoServe(a)] + [DoReturn(a)], w2, [DoSelect(a)], w');
    run := ([DoServe(a)] + [DoReturn(a)]) + [DoSelect(a)];
  }

  lemma StillFree(w: World, w': World)
    requires w.PoolFree() && |w'.scheds| == |w.scheds|
    requires forall r: Sid :: r < |w.scheds| ==> w'.scheds[r].pc.Ending? ==> w.scheds[r].pc.Ending?
    ensures w'.PoolFree()
  {
  }

  lemma {:induction false} SomebodyLent(scheds: seq<Sched>) returns (a: Sid)
    requires SumLent(scheds) > 0
    ensures a < |scheds| && scheds[a].Lent() > 0
  {
    if scheds[0].Lent() > 0 {
      a := 0;
    } else {
      a := SomebodyLent(scheds[1..]);
      a := a + 1;
    }
  }

  /** Somebody holds a thread of the exhausted pool. */
  lemma Borrower(w: World) returns (a: Sid)
    requires Calm(w) && w.pool.Exhausted() && w.pool.maxCount > 0
    ensures a < |w.scheds| && w.scheds[a].threads.fromShared > 0 && CalmSched(w.scheds[a])
  {
    LentIsAlloc(w);
    hide Inv, SumLent;
    a := SomebodyLent(w.scheds);
  }

  /** The others empty the pool, `s` gets a job and starves, and one of the others is stopped,
      returns its thread and notifies `s`. */
  lemma AbandonFollows(start: World, s: Sid) returns (run: seq<Action>, w: World)
    requires Init(start) && CanAbandon(start, s)
    ensures LeadsFixed(start, run, w) && Abandoned(w, s) && Settled(w)
  {
    hide LeadsFixed, SumMax, Sum, Inv;
    CalmStart(start);
    var caps := CapsBut(start.scheds, s, 0);
    SumCaps(start.scheds, caps, s, 0);
    StartWithin(start, caps);
    hide Init;
    var r1, w1 := Fill(start, caps);
    SameMax(start, r1, w1, s);
    OnlyShared(w1, s);
    var a := Borrower(w1);
    var r2, w2 := Starve(w1, s);
    CalmIsFree(w1);
    LeadsSound(w1, r2, w2);
    var r3, w3 := StopAndReturn(w2, a);
    LeadsSound(w2, r3, w3);
    var r4, w4 := HandOver(w3, a, s);
    LeadsSound(w3, r4, w4);
    var r5;
    r5, w := NotifyInVain(w4, a, s);
    Then(start, r1, w1, r2, w2);
    Then(start, r1 + r2, w2, r3, w3);
    Then(start, (r1 + r2) + r3, w3, r4, w4);
    Then(start, ((r1 + r2) + r3) + r4, w4, r5, w);
    run := (((r1 + r2) + r3) + r4) + r5;
  }

  /** Some run with a fixed size abandons the work of `s`. */
  ghost predicate AbandoningRun(start: World, s: Sid, run: seq<Action>) {
    NoResize(run) && Exec(start, run).Some? && Abandoned(Exec(start, run).value, s)
  }

  /** Work can be abandoned in a run that leaves the size of the pool alone if and only if the
      scheduler has no private thread but may borrow, and the others can empty the pool. */
  lemma AbandoningIsExact(start: World, s: Sid)
    requires Init(start) && s < |start.scheds|
    ensures (exists run :: AbandoningRun(start, s, run)) <==> CanAbandon(start, s)
    ensures CanAbandon(start, s) ==> exists run :: AbandoningRun(start, s, run) && Settled(Exec(start, run).value)
  {
    hide Exec, Init, SumMax, Inv, Abandoned, Settled;
    if CanAbandon(start, s) {
      var run, w := AbandonFollows(start, s);
      assert AbandoningRun(start, s, run) && Settled(Exec(start, run).value);
    }
    if exists run :: AbandoningRun(start, s, run) {
      var run :| AbandoningRun(start, s, run);
      AbandoningTakes(Exec(start, run).value, start, run, s);
    }
  }

  lemma AbandoningTakes(w: World, start: World, run: seq<Action>, s: Sid)
    requires Reached(w, start, run) && NoResize(run) && Abandoned(w, s)
    ensures CanAbandon(start, s)
  {
    hide Exec, SumMax, Inv, Init;
    ReachedInv(w, start, run);
    InitHungry(start);
    InitKeeps(start);
    HungryRun(start, run);
    StrandingTakes(w, start, run, s);
    assert SameMake(start.scheds[s], w.scheds[s]);
    assert w.scheds[s].threads.fromShared >= 0 by { SchedInvOf(w, s); Counts(w.scheds[s]); }
  }

  lemma SchedInvOf(w: World, s: Sid)
    requires Inv(w) && s < |w.scheds|
    ensures SchedInv(w.scheds[s])
  {
    hide SchedInv;
  }

  /** Some run, with any changes of the size of the pool, leaves `s` unheard. */
  ghost predicate LettingDown(start: World, s: Sid, run: seq<Action>) {
    Exec(start, run).Some? && s < |Exec(start, run).value.scheds| && Unheard(Exec(start, run).value.scheds[s])
  }

  /** If the size of the pool may be changed, a scheduler that may borrow can be let down if and
      only if it has no private thread, and another one may borrow as well. */
  lemma LettingDownIsExact(start: World, s: Sid)
    requires Init(start) && s < |start.scheds| && start.scheds[s].threads.maxFromShared > 0
    ensures (exists run :: LettingDown(start, s, run)) <==>
              start.scheds[s].threadCount == 0
              && exists a: Sid :: a != s && a < |start.scheds| && start.scheds[a].threads.maxFromShared > 0
  {
    if start.scheds[s].threadCount == 0
       && exists a: Sid :: a != s && a < |start.scheds| && start.scheds[a].threads.maxFromShared > 0 {
      var a: Sid :| a != s && a < |start.scheds| && start.scheds[a].threads.maxFromShared > 0;
      var w0 := start.(pool := Pool([], 0, 1, 1, []));
      Resized(start, s, 1);
      SumOfTwo(start.scheds, a, s);
      hide Init, SumMax, Next, Unheard;
      var run, w := AbandonFollows(w0, s);
      Before(start, DoSetCount(s, 1), w0, run, w);
      assert LettingDown(start, s, [DoSetCount(s, 1)] + run);
    }
    if exists run :: LettingDown(start, s, run) {
      var run :| LettingDown(start, s, run);
      LettingDownTakes(Exec(start, run).value, start, run, s);
    }
  }

  lemma LettingDownTakes(w: World, start: World, run: seq<Action>, s: Sid)
    requires Reached(w, start, run) && s < |start.scheds| && start.scheds[s].threads.maxFromShared > 0
    requires s < |w.scheds| && Unheard(w.scheds[s])
    ensures start.scheds[s].threadCount == 0
    ensures exists a: Sid :: a != s && a < |start.scheds| && start.scheds[a].threads.maxFromShared > 0
  {
    InitHungry(start);
    InitKeeps(start);
    assert start.scheds[s].queue.jobs == [];
    hide Exec, Inv, Init, Hungry;
    RoomRun(start, run);
    assert SameMake(start.scheds[s], w.scheds[s]);
    if w.scheds[s].threadCount > 0 {
      NoStrandedWork(w, start, run, s);
    }
    var a := LetDownByAnother(start, run, s);
  }
}
