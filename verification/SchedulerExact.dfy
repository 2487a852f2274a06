/** Exactly which schedulers and pools can be left with work that nobody runs for, get two
    schedulers stuck, or make a worker wait for its own end. */
module SchedulerExact {
  import opened Options
  import opened SchedulerModel
  import opened SharedPool
  import opened SchedulerWorld
  import opened SchedulerRuns
  import opened SchedulerTheorems
  import opened SchedulerCapacity
  import opened SchedulerReach

  lemma StartWithin(start: World, caps: seq<int>)
    requires Init(start) && |caps| == |start.scheds|
    requires forall s: Sid :: s < |caps| ==> 0 <= caps[s] <= start.scheds[s].threads.maxFromShared
    ensures Within(start, caps)
  {
  }

  // ---------------------------------------------------------------- stranded work

  /** A scheduler that can have no thread at all keeps its first job. */
  lemma StrandAlone(start: World, s: Sid) returns (run: seq<Action>, w: World)
    requires Init(start) && s < |start.scheds|
    requires start.scheds[s].threadCount == 0 && start.scheds[s].threads.maxFromShared == 0
    ensures LeadsFixed(start, run, w) && s < |w.scheds| && Stranded(w.scheds[s])
  {
    hide LeadsFixed;
    var x := start.scheds[s];
    Offer(start, s);
    run, w := [DoAnnounce(s, J), DoEnqueue(s, J)], Put(start, s, Offered(x));
    if w.scheds[s].pc.Allocating? {
      var w1 := Put(w, s, w.scheds[s].(pc := Free));
      One(w, DoAllocate(s, 0), w1);
      Then(start, run, w, [DoAllocate(s, 0)], w1);
      run, w := run + [DoAllocate(s, 0)], w1;
    }
  }

  /** The others borrow all the pool has, and then `s` gets a job. */
  lemma StrandAmongOthers(start: World, s: Sid) returns (run: seq<Action>, w: World)
    requires Init(start) && CanStrand(start, s) && start.scheds[s].threads.maxFromShared > 0
    ensures LeadsFixed(start, run, w) && s < |w.scheds| && Stranded(w.scheds[s])
  {
    hide LeadsFixed, SumMax, Sum, Inv;
    CalmStart(start);
    var caps := CapsBut(start.scheds, s, 0);
    SumCaps(start.scheds, caps, s, 0);
    StartWithin(start, caps);
    var w1;
    run, w1 := Fill(start, caps);
    SameMax(start, run, w1, s);
    OnlyShared(w1, s);
    var more;
    more, w := Starve(w1, s);
    Then(start, run, w1, more, w);
    run := run + more;
  }

  lemma OnlyShared(w: World, s: Sid)
    requires Sound(w) && s < |w.scheds| && w.scheds[s].threadCount == 0 && w.scheds[s].threads.fromShared <= 0
    requires w.scheds[s].pc.Free?
    ensures w.scheds[s].threads.NoneIdle() && w.scheds[s].threads.fromShared == 0 && w.scheds[s].threads.running == []
  {
    hide Pool.Balanced, SchedInv;
    CountsOf(w, s);
    Counts(w.scheds[s]);
  }

  /** Some run strands the work of scheduler `s`. */
  ghost predicate StrandingRun(start: World, s: Sid, run: seq<Action>) {
    && NoResize(run) && Exec(start, run).Some?
    && s < |Exec(start, run).value.scheds| && Stranded(Exec(start, run).value.scheds[s])
  }

  /** Work can be stranded, be it only until a thread is returned, if and only if the scheduler
      has no private thread, and either may borrow none or shares a pool that the others can
      empty. */
  lemma StrandingIsExact(start: World, s: Sid)
    requires Init(start) && s < |start.scheds|
    ensures (exists run :: StrandingRun(start, s, run)) <==> CanStrand(start, s)
  {
    hide Exec, Init, SumMax, Inv;
    if CanStrand(start, s) {
      var run, w;
      if start.scheds[s].threads.maxFromShared <= 0 {
        Positive(start, s);
        run, w := StrandAlone(start, s);
      } else {
        run, w := StrandAmongOthers(start, s);
      }
      assert StrandingRun(start, s, run);
    }
    if exists run :: StrandingRun(start, s, run) {
      var run :| StrandingRun(start, s, run);
      StrandingTakes(Exec(start, run).value, start, run, s);
    }
  }

  lemma Positive(start: World, s: Sid)
    requires Init(start) && s < |start.scheds|
    ensures start.scheds[s].threads.maxFromShared >= 0
  {
  }

  // ---------------------------------------------------------------- StopStarvation against Release

  lemma NothingBorrowed(start: World)
    requires Init(start)
    ensures start.pool.allocCount == 0 && forall s: Sid :: s < |start.scheds| ==> start.scheds[s].threads.fromShared == 0
  {
  }

  lemma SameMakesJoin(w: World, w1: World, w2: World)
    requires SameMakes(w, w1) && SameMakes(w1, w2)
    ensures SameMakes(w, w2)
  {
  }

  /** `a` and `b` hold a shared thread each. */
  lemma BothHold(start: World, a: Sid, b: Sid) returns (run: seq<Action>, w: World)
    requires Init(start) && CanDeadlock(start, a, b)
    ensures LeadsFixed(start, run, w) && Calm(w) && SameMakes(start, w) && w.pool.maxCount == start.pool.maxCount
    ensures forall s: Sid :: s < |w.scheds| ==>
              w.scheds[s].threads.fromShared == if s == a || s == b then 1 else 0
  {
    CalmStart(start);
    NothingBorrowed(start);
    hide LeadsFixed, SumMax, Init, Calm;
    var r1, w1 := HoldOne(start, a);
    assert w1.scheds[b] == start.scheds[b];
    var r2, w2 := HoldOne(w1, b);
    Then(start, r1, w1, r2, w2);
    SameMakesJoin(start, w1, w2);
    run, w := r1 + r2, w2;
    hide SameMakes;
  }

  /** The pool is empty, `a` and `b` hold threads of it, and `b` starves. */
  lemma Prepare(start: World, a: Sid, b: Sid) returns (run: seq<Action>, w: World)
    requires Init(start) && CanDeadlock(start, a, b)
    ensures LeadsFixed(start, run, w) && Sound(w) && w.PoolFree() && |w.scheds| == |start.scheds|
    ensures w.pool.Exhausted() && w.pool.starving == [b]
    ensures var x, y := w.scheds[a], w.scheds[b];
            && CalmSched(x) && x.threads.fromShared > 0
            && y.pc.Free? && y.threads.starved && y.ledger.hands == [] && y.threads.fromShared > 0
            && y.threads.stopCount == 0
  {
    hide LeadsFixed, SumMax, Sum, Inv, Init;
    CalmStart(start);
    var cap := start.scheds[b].threads.maxFromShared - 1;
    var r1, w1 := BothHold(start, a, b);
    var caps := CapsBut(w1.scheds, b, cap);
    SumCaps(w1.scheds, caps, b, cap);
    SumMaxSame(start.scheds, w1.scheds);
    NonNegative(start, w1);
    var r2, w2 := Fill(w1, caps);
    Then(start, r1, w1, r2, w2);
    SameMax(start, r1 + r2, w2, b);
    BorrowerIsBusy(w2, b);
    var r3, w3 := Starve(w2, b);
    Then(start, r1 + r2, w2, r3, w3);
    run, w := (r1 + r2) + r3, w3;
    CalmIsFree(start);
    LeadsSound(start, run, w);
  }

  lemma NonNegative(start: World, w: World)
    requires Init(start) && SameMakes(start, w)
    ensures forall s: Sid :: s < |w.scheds| ==> w.scheds[s].threads.maxFromShared >= 0
  {
    forall s: Sid | s < |w.scheds| ensures w.scheds[s].threads.maxFromShared >= 0 {
      assert SameMake(start.scheds[s], w.scheds[s]);
    }
  }

  lemma BorrowerIsBusy(w: World, s: Sid)
    requires Sound(w) && s < |w.scheds| && w.scheds[s].threads.fromShared > 0
    ensures w.scheds[s].threads.NoneIdle()
    ensures w.scheds[s].pc.Free? ==> |w.scheds[s].threads.running| > 0
  {
    hide Pool.Balanced, SchedInv;
    CountsOf(w, s);
    Counts(w.scheds[s]);
  }

  /** `s` is stopped, and one of its workers goes idle with a borrowed thread to return. */
  lemma StopAndReturn(w: World, s: Sid) returns (run: seq<Action>, w': World)
    requires Sound(w) && s < |w.scheds| && w.scheds[s].pc.Free? && w.scheds[s].ledger.hands == []
    requires w.scheds[s].threads.fromShared > 0 && w.scheds[s].threads.stopCount >= 0
    ensures LeadsFixed(w, run, w') && OthersSame(w, s, w') && w'.pool == w.pool
    ensures w'.scheds[s].pc.Unstarving? && w'.scheds[s].threads.starved == w.scheds[s].threads.starved
  {
    hide LeadsFixed;
    BorrowerIsBusy(w, s);
    hide Sound, Next;
    var w1 := Put(w, s, StopCall(w.scheds[s]));
    Stopped(w, s);
    One(w, DoStop(s), w1);
    w' := Put(w1, s, GoIdle(w1.scheds[s], 0));
    StoppedIdles(w1, s);
    One(w1, DoAssign(s, 0), w');
    Then(w, [DoStop(s)], w1, [DoAssign(s, 0)], w');
    run := [DoStop(s)] + [DoAssign(s, 0)];
    assert w'.scheds == w.scheds[s := w'.scheds[s]];
  }

  lemma Stopped(w: World, s: Sid)
    requires s < |w.scheds| && w.scheds[s].pc.Free?
    ensures Next(w, DoStop(s)) == Option.Some(Put(w, s, StopCall(w.scheds[s])))
  {
  }

  lemma StoppedIdles(w: World, s: Sid)
    requires s < |w.scheds| && w.scheds[s].pc.Free? && w.scheds[s].ledger.hands == []
    requires |w.scheds[s].threads.running| > 0 && w.scheds[s].threads.stopCount != 0 && w.scheds[s].threads.fromShared > 0
    ensures Next(w, DoAssign(s, 0)) == Option.Some(Put(w, s, GoIdle(w.scheds[s], 0)))
  {
    assert !w.scheds[s].Busy(w.scheds[s].threads.running[0]);
  }

  /** The thread is handed over, and the first starving scheduler selected. */
  lemma HandOver(w: World, s: Sid, b: Sid) returns (run: seq<Action>, w': World)
    requires Sound(w) && s < |w.scheds| && w.scheds[s].pc.Unstarving? && !w.scheds[s].threads.starved
    requires w.PoolFree() && w.pool.starving == [b]
    ensures LeadsFixed(w, run, w') && OthersSame(w, s, w') && w'.scheds[s].pc == Handing(b)
    ensures w'.pool.starving == [] && |w'.pool.idle| > 0
  {
    hide LeadsFixed, Sound, Inv, SchedInv, World.PoolFree;
    var x := w.scheds[s];
    var w1 := Put(w, s, x.(threads := x.threads.(starved := false), pc := Giving(x.pc.t)))
                .(owner := w.owner[x.pc.t := None]);
    FreeAfter(w, s, w1);
    One(w, DoUnstarve(s), w1);
    LeadsSound(w, [DoUnstarve(s)], w1);
    HasRoom(w1, s);
    var w2 := Put(w1, s, w1.scheds[s].(pc := Notifying)).(pool := w1.pool.TakeBack(x.pc.t));
    FreeAfter(w1, s, w2);
    One(w1, DoGive(s), w2);
    w' := Select(w2, s);
    One(w2, DoSelect(s), w');
    Then(w, [DoUnstarve(s)], w1, [DoGive(s)], w2);
    Then(w, [DoUnstarve(s)] + [DoGive(s)], w2, [DoSelect(s)], w');
    run := ([DoUnstarve(s)] + [DoGive(s)]) + [DoSelect(s)];
    assert w'.scheds == w.scheds[s := w'.scheds[s]];
  }

  lemma FreeAfter(w: World, s: Sid, w': World)
    requires w.PoolFree() && s < |w.scheds| == |w'.scheds| && w'.scheds == w.scheds[s := w'.scheds[s]]
    requires !w'.scheds[s].pc.Ending?
    ensures w'.PoolFree()
  {
  }

  lemma HasRoom(w: World, s: Sid)
    requires Sound(w) && s < |w.scheds| && w.scheds[s].pc.Giving?
    ensures w.pool.Keeps()
  {
    hide Inv;
    LentToGiver(w, s);
  }

  lemma DeadlockFollows(start: World, a: Sid, b: Sid) returns (run: seq<Action>, w: World)
    requires Init(start) && CanDeadlock(start, a, b)
    ensures LeadsFixed(start, run, w) && Deadlocked(w, a, b)
  {
    hide LeadsFixed, Sound, Init, SumMax;
    var r1, w1 := Prepare(start, a, b);
    var r2, w2 := StopAndReturn(w1, a);
    LeadsSound(w1, r2, w2);
    var r3, w3 := HandOver(w2, a, b);
    LeadsSound(w2, r3, w3);
    var r4, w4 := StopAndReturn(w3, b);
    Then(start, r1, w1, r2, w2);
    Then(start, r1 + r2, w2, r3, w3);
    Then(start, (r1 + r2) + r3, w3, r4, w4);
    run, w := ((r1 + r2) + r3) + r4, w4;
  }

  /** Some run gets `a` and `b` stuck. */
  ghost predicate DeadlockingRun(start: World, a: Sid, b: Sid, run: seq<Action>) {
    NoResize(run) && Exec(start, run).Some? && Deadlocked(Exec(start, run).value, a, b)
  }

  lemma {:induction false} SumOfTwo(scheds: seq<Sched>, a: Sid, b: Sid)
    requires a != b && a < |scheds| && b < |scheds|
    requires forall s: Sid :: s < |scheds| ==> scheds[s].threads.maxFromShared >= 0
    ensures SumMax(scheds) >= scheds[a].threads.maxFromShared + scheds[b].threads.maxFromShared
  {
    if a > 0 && b > 0 {
      SumOfTwo(scheds[1..], a - 1, b - 1);
    } else {
      SumOfOne(scheds[1..], if a == 0 then b - 1 else a - 1);
    }
  }

  lemma {:induction false} SumOfOne(scheds: seq<Sched>, a: Sid)
    requires forall s: Sid :: s < |scheds| ==> scheds[s].threads.maxFromShared >= 0
    ensures SumMax(scheds) >= if a < |scheds| then scheds[a].threads.maxFromShared else 0
  {
    if |scheds| > 0 {
      SumOfOne(scheds[1..], if a == 0 then |scheds| else a - 1);
    }
  }

  /** A pool that is not in use yet can be given any size. */
  lemma Resized(start: World, s: Sid, count: nat)
    requires Init(start) && s < |start.scheds| && count > 0
    ensures var w := start.(pool := Pool([], 0, count, count, []));
            Init(w) && Next(start, DoSetCount(s, count)) == Option.Some(w)
  {
    assert start.owner - (set t | t in start.pool.idle[0..]) == map[];
  }

  ghost predicate StuckRun(start: World, a: Sid, b: Sid, run: seq<Action>) {
    Exec(start, run).Some? && Deadlocked(Exec(start, run).value, a, b)
  }

  /** If the size of the pool may be changed, two schedulers can get stuck for good if and only
      if the one that waits may borrow a thread and the one that spins two. */
  lemma StuckIsExact(start: World, a: Sid, b: Sid)
    requires Init(start)
    ensures (exists run :: StuckRun(start, a, b, run)) <==>
              a != b && a < |start.scheds| && b < |start.scheds|
              && start.scheds[a].threads.maxFromShared >= 1 && start.scheds[b].threads.maxFromShared >= 2
  {
    if a != b && a < |start.scheds| && b < |start.scheds|
       && start.scheds[a].threads.maxFromShared >= 1 && start.scheds[b].threads.maxFromShared >= 2 {
      var w := start.(pool := Pool([], 0, 2, 2, []));
      Resized(start, a, 2);
      SumOfTwo(start.scheds, a, b);
      hide Init, SumMax, Deadlocked, Next;
      var run, w' := DeadlockFollows(w, a, b);
      assert ([DoSetCount(a, 2)] + run)[1..] == run;
      assert StuckRun(start, a, b, [DoSetCount(a, 2)] + run);
    }
    if exists run :: StuckRun(start, a, b, run) {
      hide Exec, Init, Deadlocked;
      var run :| StuckRun(start, a, b, run);
      DeadlockTakesTwo(Exec(start, run).value, start, run, a, b);
    }
  }

  /** If the size of the pool is left alone, if and only if, moreover, the pool has at least two
      threads but fewer than all schedulers together may borrow. */
  lemma DeadlockIsExact(start: World, a: Sid, b: Sid)
    requires Init(start)
    ensures (exists run :: DeadlockingRun(start, a, b, run)) <==> CanDeadlock(start, a, b)
  {
    hide Exec, Init, SumMax, Deadlocked;
    if CanDeadlock(start, a, b) {
      var run, w := DeadlockFollows(start, a, b);
      assert DeadlockingRun(start, a, b, run);
    }
    if exists run :: DeadlockingRun(start, a, b, run) {
      var run :| DeadlockingRun(start, a, b, run);
      DeadlockTakes(Exec(start, run).value, start, run, a, b);
    }
  }

  // ---------------------------------------------------------------- a pool made too small

  /** `s` returns a borrowed thread to a pool that has been given the size 0. */
  lemma ReturnedTooLate(w: World, s: Sid) returns (run: seq<Action>, w': World)
    requires s < |w.scheds| && w.scheds[s].pc.Unstarving? && !w.scheds[s].threads.starved && w.PoolFree()
    requires w.pool.allocCount == 1 && w.pool.idle == []
    ensures Exec(w, run) == Option.Some(w') && s < |w'.scheds| && w'.scheds[s].pc.Ending?
  {
    hide World.PoolFree, Exec, NoResize;
    var x := w.scheds[s];
    var w1 := w.(pool := w.pool.SetCount(0), owner := w.owner - (set t | t in w.pool.idle[w.pool.Surviving(0)..]));
    FreeAfter(w, s, w1);
    var w2 := Unstarve(w1, s);
    FreeAfter(w1, s, w2);
    var w3 := Give(w2, s);
    One(w1, DoUnstarve(s), w2);
    One(w2, DoGive(s), w3);
    Then(w1, [DoUnstarve(s)], w2, [DoGive(s)], w3);
    Before(w, DoSetCount(s, 0), w1, [DoUnstarve(s)] + [DoGive(s)], w3);
    run, w' := [DoSetCount(s, 0)] + ([DoUnstarve(s)] + [DoGive(s)]), w3;
  }

  lemma Before(w: World, a: Action, w1: World, run: seq<Action>, w2: World)
    requires Next(w, a) == Option.Some(w1) && Exec(w1, run) == Option.Some(w2)
    ensures Exec(w, [a] + run) == Option.Some(w2)
  {
    hide Next;
    assert ([a] + run)[1..] == run;
  }

  lemma MadeToWait(start: World, s: Sid) returns (run: seq<Action>, w: World)
    requires Init(start) && s < |start.scheds| && start.scheds[s].threads.maxFromShared > 0
    ensures Exec(start, run) == Option.Some(w) && s < |w.scheds| && w.scheds[s].pc.Ending?
  {
    var w0 := start.(pool := Pool([], 0, 1, 1, []));
    Resized(start, s, 1);
    CalmStart(w0);
    CalmIsFree(w0);
    NothingBorrowed(w0);
    hide Runs.Exec, Next, Init, Calm, Sound, World.PoolFree;
    var r1, w1 := HoldOne(w0, s);
    OneCalm(w1, s);
    var r2, w2 := StopAndReturn(w1, s);
    LeadsSound(w0, r1, w1);
    LeadsSound(w1, r2, w2);
    AllLent(w2);
    var r3, w3 := ReturnedTooLate(w2, s);
    Runs.ExecJoin(Next, w1, r2, r3);
    Runs.ExecJoin(Next, w0, r1, r2 + r3);
    Before(start, DoSetCount(s, 1), w0, r1 + (r2 + r3), w3);
    run, w := [DoSetCount(s, 1)] + (r1 + (r2 + r3)), w3;
  }

  lemma OneCalm(w: World, s: Sid)
    requires Calm(w) && s < |w.scheds|
    ensures Sound(w) && CalmSched(w.scheds[s])
  {
    hide Sound;
  }

  lemma AllLent(w: World)
    requires Sound(w) && w.pool.allocCount == w.pool.maxCount
    ensures w.pool.idle == []
  {
    hide Inv;
  }

  /** Some run makes a worker of scheduler `s` wait for its own end. */
  ghost predicate EndingRun(start: World, s: Sid, run: seq<Action>) {
    Exec(start, run).Some? && s < |Exec(start, run).value.scheds| && Exec(start, run).value.scheds[s].pc.Ending?
  }

  /** That is possible if and only if the scheduler may borrow, and takes an unsafe change of the
      size of the pool. */
  lemma EndingIsExact(start: World, s: Sid)
    requires Init(start) && s < |start.scheds|
    ensures (exists run :: EndingRun(start, s, run)) <==> start.scheds[s].threads.maxFromShared > 0
    ensures forall run :: EndingRun(start, s, run) ==> !SafelyResized(start, run)
  {
    InitHungry(start);
    InitKeeps(start);
    CalmStart(start);
    CalmIsFree(start);
    hide Exec, Init, Inv, SchedInv, World.PoolFree, Calm;
    if start.scheds[s].threads.maxFromShared > 0 {
      var run, w := MadeToWait(start, s);
      assert EndingRun(start, s, run);
    }
    forall run | EndingRun(start, s, run)
      ensures start.scheds[s].threads.maxFromShared > 0 && !SafelyResized(start, run)
    {
      var w := Exec(start, run).value;
      EndingNeedsOne(start, run, s);
      BalanceIsExact(start, run);
      EndingHoldsPool(w, s);
    }
  }

  lemma EndingHoldsPool(w: World, s: Sid)
    requires s < |w.scheds| && w.scheds[s].pc.Ending?
    ensures !w.PoolFree()
  {
  }

  lemma EndingNeedsOne(start: World, run: seq<Action>, s: Sid)
    requires Init(start) && s < |start.scheds| && EndingRun(start, s, run)
    ensures start.scheds[s].threads.maxFromShared > 0
  {
    InitHungry(start);
    InitKeeps(start);
    hide Exec, Init, SchedInv;
    var w := Exec(start, run).value;
    ExecKeeps(start, run);
    RoomRun(start, run);
    assert SchedInv(w.scheds[s]) && SameMake(start.scheds[s], w.scheds[s]);
    LeavingHasBorrowed(w.scheds[s]);
  }
}
