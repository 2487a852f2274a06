/** The guarantees of the job scheduler, each for every run of any number of schedulers
    that start out new and share one pool. */
module SchedulerTheorems {
  import opened Options
  import opened SchedulerModel
  import opened SchedulerSteps
  import opened SharedPool
  import opened SchedulerWorld
  import opened SchedulerRuns

  /** `w` is what some run from the start leads to. */
  ghost predicate Reached(w: World, start: World, run: seq<Action>) {
    Init(start) && Exec(start, run) == Option.Some(w)
  }

  lemma ReachedInv(w: World, start: World, run: seq<Action>)
    requires Reached(w, start, run)
    ensures Inv(w)
  {
    InitKeeps(start);
    ExecKeeps(start, run);
  }

  /** No stranded work: between two mutex sections a scheduler with a private thread that is
      not stopped and has queued jobs has a thread running. */
  lemma NoStrandedWork(w: World, start: World, run: seq<Action>, s: Sid)
    requires Reached(w, start, run) && s < |w.scheds|
    requires var x := w.scheds[s];
             x.pc.Free? && x.threadCount > 0 && x.threads.stopCount == 0 && x.queue.jobs != []
    ensures w.scheds[s].threads.running != []
  {
    ReachedInv(w, start, run);
    assert SchedInv(w.scheds[s]);
  }

  /** No step of the run is a Stop of `s`. */
  predicate NeverStopped(run: seq<Action>, s: Sid) {
    forall i :: 0 <= i < |run| ==> run[i] != DoStop(s)
  }

  lemma StopByStep(w: World, a: Action, s: Sid)
    requires Next(w, a).Some? && s < |w.scheds|
    ensures s < |Next(w, a).value.scheds|
    ensures Next(w, a).value.scheds[s].ledger.everStopped <==> w.scheds[s].ledger.everStopped || a == DoStop(s)
  {
    hide TakeOff, World.PoolFree, Allocate, Assign;
    if a.DoAllocate? {
      AllocateKeepsLedger(w, a.s, a.anew, s);
    } else if a.DoAssign? {
      AssignKeepsHistory(w, a.s, a.i, s);
    }
  }

  lemma AllocateKeepsLedger(w: World, r: Sid, anew: Tid, s: Sid)
    requires r < |w.scheds| && s < |w.scheds| && w.scheds[r].pc.Allocating? && Allocate(w, r, anew).Some?
    ensures s < |Allocate(w, r, anew).value.scheds| && Allocate(w, r, anew).value.scheds[s].ledger == w.scheds[s].ledger
  {
    hide World.PoolFree;
  }

  lemma AssignKeepsHistory(w: World, r: Sid, i: nat, s: Sid)
    requires r < |w.scheds| && s < |w.scheds| && Assign(w, r, i).Some?
    ensures s < |Assign(w, r, i).value.scheds|
    ensures Assign(w, r, i).value.scheds[s].ledger.everStopped == w.scheds[s].ledger.everStopped
  {
  }

  lemma {:induction false} StopsAreRemembered(w: World, run: seq<Action>, s: Sid)
    requires Exec(w, run).Some? && s < |w.scheds|
    ensures s < |Exec(w, run).value.scheds|
    ensures Exec(w, run).value.scheds[s].ledger.everStopped <==> w.scheds[s].ledger.everStopped || !NeverStopped(run, s)
    decreases |run|
  {
    hide Next;
    if |run| > 0 {
      StopByStep(w, run[0], s);
      StopsAreRemembered(Next(w, run[0]).value, run[1..], s);
    }
  }

  lemma {:induction false} SameSize(w: World, run: seq<Action>)
    requires Exec(w, run).Some?
    ensures |Exec(w, run).value.scheds| == |w.scheds|
    decreases |run|
  {
    if |run| > 0 {
      SizeByStep(w, run[0]);
      hide Next;
      SameSize(Next(w, run[0]).value, run[1..]);
    }
  }

  lemma SizeByStep(w: World, a: Action)
    requires Next(w, a).Some?
    ensures |Next(w, a).value.scheds| == |w.scheds|
  {
    hide TakeOff, World.PoolFree;
  }

  lemma NotStoppedSoFar(w: World, start: World, run: seq<Action>, s: Sid)
    requires Reached(w, start, run) && s < |w.scheds|
    ensures w.scheds[s].ledger.everStopped <==> !NeverStopped(run, s)
  {
    SameSize(start, run);
    assert !start.scheds[s].ledger.everStopped;
    hide Exec, Init;
    StopsAreRemembered(start, run, s);
  }

  /** The backlog is at most four jobs per running thread, two if the scheduler was never
      stopped, unless no private thread is idle; without shared threads that means that
      nothing at all is left to start. */
  lemma BacklogBound(w: World, start: World, run: seq<Action>, s: Sid)
    requires Reached(w, start, run) && s < |w.scheds| && w.scheds[s].pc.Free?
    ensures var x := w.scheds[s];
            var size, th := |x.queue.jobs|, x.threads;
            && (th.stopCount == 0 ==> size <= 4 * th.runningCount || (th.suspended == [] && th.yetToCreate == 0))
            && (NeverStopped(run, s) ==> size <= 2 * th.runningCount || (th.suspended == [] && th.yetToCreate == 0))
            && (th.maxFromShared == 0 ==>
                  && (th.stopCount == 0 ==> size <= 4 * th.runningCount || th.unusedCount == 0)
                  && (NeverStopped(run, s) ==> size <= 2 * th.runningCount || th.unusedCount == 0))
  {
    NotStoppedSoFar(w, start, run, s);
    ReachedInv(w, start, run);
    assert SchedInv(w.scheds[s]);
  }

  /** The cached counters agree with the lists, no counter ever wraps, shared threads are only
      held while no private thread is idle; so a scheduler without running threads holds no
      shared thread, which is what its destructor asserts. */
  lemma CountersAgree(w: World, start: World, run: seq<Action>, s: Sid)
    requires Reached(w, start, run) && s < |w.scheds| && w.scheds[s].pc.Free?
    ensures var th := w.scheds[s].threads;
            && th.runningCount == |th.running| && th.suspendedCount == |th.suspended|
            && th.unusedCount == |th.suspended| + th.yetToCreate + th.maxFromShared - th.fromShared
            && |th.running| + |th.suspended| + th.yetToCreate == w.scheds[s].threadCount + th.fromShared
            && 0 <= th.yetToCreate && 0 <= th.fromShared <= th.maxFromShared && 0 <= th.unusedCount && 0 <= th.stopCount
            && (th.fromShared > 0 ==> th.suspended == [] && th.yetToCreate == 0)
            && (th.runningCount == 0 ==> th.running == [] && th.fromShared == 0)
  {
    ReachedInv(w, start, run);
    assert SchedInv(w.scheds[s]);
  }

  function SumFromShared(scheds: seq<Sched>): int {
    if |scheds| == 0 then 0 else scheds[0].threads.fromShared + SumFromShared(scheds[1..])
  }

  lemma {:induction false} AllFree(scheds: seq<Sched>)
    requires forall s: Sid :: s < |scheds| ==> scheds[s].pc.Free?
    ensures SumLent(scheds) == SumFromShared(scheds)
  {
    if |scheds| > 0 {
      AllFree(scheds[1..]);
    }
  }

  /** Every change of the pool's size in a run is made when it is safe. */
  ghost predicate SafelyResized(w: World, run: seq<Action>)
    requires Exec(w, run).Some?
    decreases |run|
  {
    |run| > 0 ==>
      (run[0].DoSetCount? ==> SafeToSet(w.pool, run[0].count)) && SafelyResized(Next(w, run[0]).value, run[1..])
  }

  /** The pool keeps its documented bound all the way through a run. */
  ghost predicate BalancedThroughout(w: World, run: seq<Action>)
    requires Exec(w, run).Some?
    decreases |run|
  {
    w.pool.Balanced() && (|run| > 0 ==> BalancedThroughout(Next(w, run[0]).value, run[1..]))
  }

  /** It does so if and only if every change of its size is safe, and then no worker is made to
      wait for its own end. */
  lemma {:induction false} BalanceIsExact(w: World, run: seq<Action>)
    requires Inv(w) && w.pool.Balanced() && Exec(w, run).Some?
    ensures BalancedThroughout(w, run) <==> SafelyResized(w, run)
    ensures SafelyResized(w, run) ==>
              Exec(w, run).value.pool.Balanced() && (w.PoolFree() ==> Exec(w, run).value.PoolFree())
    decreases |run|
  {
    hide Inv, Next, World.PoolFree;
    if |run| > 0 {
      var w' := Next(w, run[0]).value;
      BalanceKept(w, run[0]);
      NextKeeps(w, run[0]);
      PoolStaysFree(w, run[0]);
      if w'.pool.Balanced() {
        BalanceIsExact(w', run[1..]);
      } else {
        NotBalanced(w', run[1..]);
      }
    }
  }

  lemma NotBalanced(w: World, run: seq<Action>)
    requires !w.pool.Balanced() && Exec(w, run).Some?
    ensures !BalancedThroughout(w, run)
  {
  }

  lemma PlainStaysFree(w: World, a: Action)
    requires Next(w, a).Some? && (Plain(a) || a.DoAllocate? || a.DoAssign?) && w.PoolFree()
    ensures Next(w, a).value.PoolFree()
  {
    hide TakeOff;
  }

  lemma PoolStaysFree(w: World, a: Action)
    requires Inv(w) && w.pool.Balanced() && Next(w, a).Some?
    ensures w.PoolFree() ==> Next(w, a).value.PoolFree()
  {
    hide Inv;
    BalanceKept(w, a);
    hide Pool.Balanced, Allocate, Assign;
    if (Plain(a) || a.DoAllocate? || a.DoAssign?) && w.PoolFree() {
      hide Next;
      PlainStaysFree(w, a);
    }
  }

  /** While no section is under way the schedulers hold exactly what the pool has booked as
      handed out; and if its size is changed safely only, it hands out no more than that. */
  lemma PoolConserved(w: World, start: World, run: seq<Action>)
    requires Reached(w, start, run)
    ensures 0 <= w.pool.yetToCreate && 0 <= w.pool.allocCount
    ensures (forall s: Sid :: s < |w.scheds| ==> w.scheds[s].pc.Free?) ==>
              SumFromShared(w.scheds) == w.pool.allocCount
    ensures SafelyResized(start, run) ==>
              && w.pool.allocCount + |w.pool.idle| + w.pool.yetToCreate == w.pool.maxCount
              && forall s: Sid :: s < |w.scheds| ==> !w.scheds[s].pc.Ending?
  {
    ReachedInv(w, start, run);
    InitKeeps(start);
    BalanceIsExact(start, run);
    AllocNonNegative(w);
    if forall s: Sid :: s < |w.scheds| ==> w.scheds[s].pc.Free? {
      AllFree(w.scheds);
    }
  }

  /** The scheduler is about to hand the thread to the pool, or made it wait for its own end. */
  predicate OnItsWay(x: Sched, t: Tid) { x.pc == Giving(t) || x.pc == Ending(t) }

  /** Every thread is in exactly one place, once, and its owner field names it; a thread on its
      way to the pool has no owner. */
  lemma ThreadsInOnePlace(w: World, start: World, run: seq<Action>, t: Tid)
    requires Reached(w, start, run)
    ensures t in w.owner <==>
              t in w.pool.idle || exists s: Sid :: s < |w.scheds| && (t in w.scheds[s].Held() || OnItsWay(w.scheds[s], t))
    ensures forall s: Sid :: s < |w.scheds| && t in w.scheds[s].Held() ==>
              && w.owner[t] == Option.Some(s) && t !in w.pool.idle && multiset(w.scheds[s].Held())[t] == 1
              && forall r: Sid :: r < |w.scheds| ==> (r != s ==> t !in w.scheds[r].Held()) && !OnItsWay(w.scheds[r], t)
    ensures t in w.pool.idle ==>
              && w.owner[t] == Option.None && multiset(w.pool.idle)[t] == 1
              && forall s: Sid :: s < |w.scheds| ==> !OnItsWay(w.scheds[s], t)
    ensures forall s: Sid :: s < |w.scheds| && OnItsWay(w.scheds[s], t) ==>
              && w.owner[t] == Option.None && t !in w.pool.idle
              && forall r: Sid :: r < |w.scheds| && r != s ==> !OnItsWay(w.scheds[r], t)
  {
    ReachedInv(w, start, run);
    hide SchedInv, Hunger.Exact, NoDup, Places.Claimed, Places.Pooled, Sched.Held;
    var p := PlacesOf(w);
    OnePlace(p, t);
    PlacesMean(w, t);
    OnlyOnce(w.pool.idle, t) by { assert p.Single(); }
    hide Inv, Places.Exact, PlacesOf, OnItsWay;
  }

  /** What the view of the places says about one thread. */
  lemma PlacesMean(w: World, t: Tid)
    requires AllSchedInv(w)
    ensures var p := PlacesOf(w);
            |p.held| == |p.transit| == |w.scheds| && p.idle == w.pool.idle && p.owner == w.owner
    ensures forall s: Sid :: s < |w.scheds| ==>
              && (t in PlacesOf(w).held[s] <==> t in w.scheds[s].Held())
              && (PlacesOf(w).transit[s] == Option.Some(t) <==> OnItsWay(w.scheds[s], t))
              && multiset(w.scheds[s].Held())[t] == if t in w.scheds[s].Held() then 1 else 0
  {
    hide Accounted, Backlog, Tallied, HandsOk, NobodyForgotten, NoDup;
    forall s: Sid | s < |w.scheds|
      ensures multiset(w.scheds[s].Held())[t] == if t in w.scheds[s].Held() then 1 else 0
    {
      assert SchedInv(w.scheds[s]);
      OnlyOnce(w.scheds[s].Held(), t);
    }
  }

  lemma OnePlace(p: Places, t: Tid)
    requires p.Exact()
    ensures t in p.owner <==> t in p.idle || exists s: Sid :: s < |p.held| && (t in p.held[s] || p.transit[s] == Option.Some(t))
    ensures forall s: Sid :: s < |p.held| && t in p.held[s] ==>
              && p.owner[t] == Option.Some(s) && t !in p.idle
              && forall r: Sid :: r < |p.held| ==> (r != s ==> t !in p.held[r]) && p.transit[r] != Option.Some(t)
    ensures t in p.idle ==> p.owner[t] == Option.None && forall s: Sid :: s < |p.transit| ==> p.transit[s] != Option.Some(t)
    ensures forall s: Sid :: s < |p.transit| && p.transit[s] == Option.Some(t) ==>
              && p.owner[t] == Option.None && t !in p.idle
              && forall r: Sid :: r < |p.transit| && r != s ==> p.transit[r] != Option.Some(t)
  {
    if t in p.owner && p.owner[t].Some? {
      assert t in p.held[p.owner[t].value];
    } else if t in p.owner && p.InTransit(t) {
      var s: Sid :| s < |p.transit| && p.transit[s] == Option.Some(t);
    }
  }

  lemma {:induction false} OnlyOnce(s: seq<Tid>, t: Tid)
    requires NoDup(s)
    ensures multiset(s)[t] == if t in s then 1 else 0
  {
    if |s| > 0 {
      var last := |s| - 1;
      assert s == s[..last] + [s[last]];
      OnlyOnce(s[..last], t);
      assert multiset(s) == multiset(s[..last]) + multiset{s[last]};
      if s[last] == t {
        assert forall i :: 0 <= i < last ==> s[..last][i] == s[i] != t;
      }
    }
  }

  /** Every job a scheduler was given is on its way into the queue, queued, in the hands of
      exactly one running worker, finished or removed, and in only one of these. */
  lemma JobsConserved(w: World, start: World, run: seq<Action>, s: Sid)
    requires Reached(w, start, run) && s < |w.scheds|
    ensures var x := w.scheds[s];
            var l := x.ledger;
            && l.given == l.announced + multiset(x.queue.jobs) + multiset(JobsOf(l.hands)) + l.finished + l.removed
            && (forall h :: h in l.hands ==> h.thread in x.threads.running)
            && (forall i, j :: 0 <= i < j < |l.hands| ==> l.hands[i].thread != l.hands[j].thread)
  {
    ReachedInv(w, start, run);
    assert SchedInv(w.scheds[s]);
  }

  /** When WaitForEmptyQueue returns, every job queued before has been finished or removed. */
  lemma WaitReturnsDone(w: World, start: World, run: seq<Action>, s: Sid)
    requires Reached(w, start, run) && s < |w.scheds| && w.scheds[s].pc.Free? && WaitReturns(w.scheds[s])
    ensures var l := WaitTurn(w.scheds[s]).ledger;
            l.given == l.announced + l.finished + l.removed && l.finished == w.scheds[s].ledger.finished
  {
    ReachedInv(w, start, run);
    DrainedKeeps(w.scheds[s]);
    EmptyHanded(Drained(w.scheds[s]));
    hide SchedInv, TakeOff;
  }

  lemma EmptyHanded(d: Sched)
    requires SchedInv(d) && d.pc.Free? && d.threads.runningCount == 0 && d.queue.jobs == []
    ensures d.ledger.given == d.ledger.announced + d.ledger.finished + d.ledger.removed
  {
    hide Backlog, NobodyForgotten, NoDup;
    var l := d.ledger;
    assert forall i :: 0 <= i < |l.hands| ==> l.hands[i].thread in d.threads.running;
    assert l.hands == [] && JobsOf(l.hands) == [];
    assert multiset(d.queue.jobs) == multiset{} && multiset(JobsOf(l.hands)) == multiset{};
  }

  /** In a run that never stops it, a scheduler with a private thread leaves no caller of
      WaitForEmptyQueue asleep on an unsignalled event with nobody left to signal it. */
  lemma NobodyLeftAsleep(w: World, start: World, run: seq<Action>, s: Sid)
    requires Reached(w, start, run) && s < |w.scheds|
    requires var x := w.scheds[s];
             x.pc.Free? && x.threadCount > 0 && NeverStopped(run, s) && x.ledger.sleepers > 0 && !x.emptyEvent
    ensures w.scheds[s].threads.running != []
  {
    NotStoppedSoFar(w, start, run, s);
    ReachedInv(w, start, run);
    assert SchedInv(w.scheds[s]);
  }

  /** Once the event is signalled, all who sleep on it can get up, one by one; nothing else changes. */
  lemma {:induction false} AllWakeUp(w: World, s: Sid) returns (run: seq<Action>)
    requires s < |w.scheds| && w.scheds[s].emptyEvent
    ensures |run| == w.scheds[s].ledger.sleepers && forall i :: 0 <= i < |run| ==> run[i] == DoWake(s)
    ensures Exec(w, run) == Option.Some(Put(w, s, w.scheds[s].(ledger := w.scheds[s].ledger.(sleepers := 0))))
    decreases w.scheds[s].ledger.sleepers
  {
    run := [];
    if w.scheds[s].ledger.sleepers > 0 {
      var w1 := Next(w, DoWake(s)).value;
      assert w1.scheds[s].ledger == w.scheds[s].ledger.(sleepers := w.scheds[s].ledger.sleepers - 1);
      var more := AllWakeUp(w1, s);
      run := [DoWake(s)] + more;
      assert run[1..] == more;
      assert w1.scheds[s := w1.scheds[s].(ledger := w1.scheds[s].ledger.(sleepers := 0))]
          == w.scheds[s := w.scheds[s].(ledger := w.scheds[s].ledger.(sleepers := 0))];
    } else {
      assert w.scheds[s := w.scheds[s]] == w.scheds;
    }
  }

  // ---------------------------------------------------------------- sleepers, whatever is done

  /** Somebody sleeps on an unsignalled event of an idle scheduler with an empty queue. */
  predicate Forgotten(x: Sched) {
    x.ledger.sleepers > 0 && !x.emptyEvent && x.threads.runningCount <= 0 && x.queue.jobs == []
  }

  /** The step takes the last waiting job of a scheduler for which nobody runs, and somebody
      sleeps: RemoveJobFromQueue with the watermark 0, or WaitForEmptyQueue while stopped. */
  predicate Forgets(w: World, a: Action, s: Sid)
    requires s < |w.scheds|
  {
    var x := w.scheds[s];
    && a.s == s && x.pc.Free? && x.queue.jobs != [] && x.threads.runningCount <= 0
    && x.ledger.sleepers > 0 && !x.emptyEvent
    && ((a.DoRemove? && a.watermark == 0) || (a.DoWait? && x.threads.stopCount != 0))
  }

  lemma LastJobTaken(x: Sched, watermark: nat, oldest: bool)
    ensures RemoveJobs(x, watermark, oldest).queue.jobs == [] <==> x.queue.jobs == [] || watermark == 0
    ensures Drained(x).queue.jobs == [] <==> x.queue.jobs == [] || x.threads.stopCount != 0
  {
  }

  lemma RemovingForgets(x: Sched, watermark: nat, oldest: bool)
    requires !Forgotten(x)
    ensures Forgotten(RemoveJobs(x, watermark, oldest)) <==>
              x.queue.jobs != [] && watermark == 0 && x.threads.runningCount <= 0 && x.ledger.sleepers > 0 && !x.emptyEvent
  {
    LastJobTaken(x, watermark, oldest);
    hide TakeOff;
  }

  lemma WaitingForgets(x: Sched)
    requires !Forgotten(x) && x.threads.runningCount >= 0
    ensures Forgotten(WaitTurn(x)) <==>
              x.queue.jobs != [] && x.threads.stopCount != 0 && x.threads.runningCount <= 0 && x.ledger.sleepers > 0 && !x.emptyEvent
  {
    LastJobTaken(x, 0, false);
    hide TakeOff;
  }

  lemma PlainForgets(w: World, a: Action, s: Sid)
    requires Inv(w) && s < |w.scheds| && !Forgotten(w.scheds[s]) && Next(w, a).Some? && Plain(a)
    ensures s < |Next(w, a).value.scheds| && (Forgotten(Next(w, a).value.scheds[s]) <==> Forgets(w, a, s))
  {
    hide SchedInv, Places.Exact, Hunger.Exact, RemoveJobs, WaitTurn;
    var x := w.scheds[s];
    assert SchedInv(x);
    RunningCounted(x);
    if a.s == s {
      if a.DoRemove? {
        RemovingForgets(x, a.watermark, a.oldest);
      } else if a.DoWait? {
        WaitingForgets(x);
      }
    }
  }

  lemma AllocateForgets(w: World, r: Sid, anew: Tid, s: Sid)
    requires r < |w.scheds| && s < |w.scheds| && w.scheds[r].pc.Allocating? && Allocate(w, r, anew).Some?
    requires !Forgotten(w.scheds[s])
    ensures s < |Allocate(w, r, anew).value.scheds| && !Forgotten(Allocate(w, r, anew).value.scheds[s])
  {
    hide World.PoolFree;
  }

  lemma AssignForgets(w: World, r: Sid, i: nat, s: Sid)
    requires r < |w.scheds| && s < |w.scheds| && Assign(w, r, i).Some? && !Forgotten(w.scheds[s])
    requires w.scheds[r].threads.runningCount >= |w.scheds[r].threads.running|
    ensures s < |Assign(w, r, i).value.scheds| && !Forgotten(Assign(w, r, i).value.scheds[s])
  {
  }

  lemma ThreadForgets(w: World, a: Action, s: Sid)
    requires Inv(w) && s < |w.scheds| && !Forgotten(w.scheds[s]) && Next(w, a).Some? && (a.DoAllocate? || a.DoAssign?)
    ensures s < |Next(w, a).value.scheds| && !Forgotten(Next(w, a).value.scheds[s])
  {
    assert SchedInv(w.scheds[a.s]) by { hide SchedInv, PoolInv, Places.Exact, Hunger.Exact; }
    RunningCounted(w.scheds[a.s]);
    hide Inv, SchedInv, Forgotten, Allocate, Assign, World.PoolFree;
    if a.DoAllocate? {
      AllocateForgets(w, a.s, a.anew, s);
    } else {
      AssignForgets(w, a.s, a.i, s);
    }
  }

  lemma OtherForgets(w: World, a: Action, s: Sid)
    requires Inv(w) && s < |w.scheds| && !Forgotten(w.scheds[s]) && Next(w, a).Some?
    requires !Plain(a) && !a.DoAllocate? && !a.DoAssign?
    ensures s < |Next(w, a).value.scheds| && !Forgotten(Next(w, a).value.scheds[s])
  {
    hide SchedInv, Places.Exact, Hunger.Exact, Allocate, Assign, World.PoolFree;
    assert SchedInv(w.scheds[s]);
    RunningCounted(w.scheds[s]);
    hide Inv;
  }

  lemma RunningCounted(x: Sched)
    requires SchedInv(x)
    ensures x.threads.runningCount >= |x.threads.running|
    ensures x.threads.suspendedCount >= 0
  {
  }

  /** A step makes a sleeper forgotten if and only if it takes the last job like that. */
  lemma ForgottenByStep(w: World, a: Action, s: Sid)
    requires Inv(w) && s < |w.scheds| && !Forgotten(w.scheds[s]) && Next(w, a).Some?
    ensures s < |Next(w, a).value.scheds| && (Forgotten(Next(w, a).value.scheds[s]) <==> Forgets(w, a, s))
  {
    hide Inv, Next, Forgotten, Forgets;
    if Plain(a) {
      PlainForgets(w, a, s);
    } else {
      if a.DoAllocate? || a.DoAssign? {
        ThreadForgets(w, a, s);
      } else {
        OtherForgets(w, a, s);
      }
      assert !Forgets(w, a, s) by { NotPlain(w, a, s); }
    }
  }

  lemma NotPlain(w: World, a: Action, s: Sid)
    requires s < |w.scheds| && !Plain(a)
    ensures !Forgets(w, a, s)
  {
  }

  /** No step of a run forgets a sleeper of `s`. */
  ghost predicate NeverForgets(w: World, run: seq<Action>, s: Sid)
    requires Exec(w, run).Some? && s < |w.scheds|
    decreases |run|
  {
    |run| > 0 ==>
      && !Forgets(w, run[0], s)
      && s < |Next(w, run[0]).value.scheds| && NeverForgets(Next(w, run[0]).value, run[1..], s)
  }

  /** At no moment of a run is a sleeper of `s` forgotten. */
  ghost predicate NobodyEverForgotten(w: World, run: seq<Action>, s: Sid)
    requires Exec(w, run).Some? && s < |w.scheds|
    decreases |run|
  {
    && !Forgotten(w.scheds[s])
    && (|run| > 0 ==> s < |Next(w, run[0]).value.scheds| && NobodyEverForgotten(Next(w, run[0]).value, run[1..], s))
  }

  /** For every run: no sleeper is forgotten at any moment if and only if no step takes the last
      job of an idle scheduler while somebody sleeps on its unsignalled event. */
  lemma {:induction false} ForgettingIsExact(w: World, run: seq<Action>, s: Sid)
    requires Inv(w) && Exec(w, run).Some? && s < |w.scheds| && !Forgotten(w.scheds[s])
    ensures NobodyEverForgotten(w, run, s) <==> NeverForgets(w, run, s)
    ensures NeverForgets(w, run, s) ==> s < |Exec(w, run).value.scheds| && !Forgotten(Exec(w, run).value.scheds[s])
    decreases |run|
  {
    hide Inv, Next, Forgotten, Forgets;
    if |run| > 0 {
      var w' := Next(w, run[0]).value;
      NextKeeps(w, run[0]);
      ForgottenByStep(w, run[0], s);
      if !Forgotten(w'.scheds[s]) {
        ForgettingIsExact(w', run[1..], s);
      }
    }
  }

  /** A sleeper of a new scheduler always has a running thread or a waiting job, unless one of
      these steps was made. */
  lemma SleepersHaveWork(w: World, start: World, run: seq<Action>, s: Sid)
    requires Reached(w, start, run) && s < |start.scheds| && NeverForgets(start, run, s)
    ensures s < |w.scheds|
    ensures var x := w.scheds[s];
            x.ledger.sleepers > 0 && !x.emptyEvent ==> x.threads.runningCount > 0 || x.queue.jobs != []
  {
    InitKeeps(start);
    hide Inv, Exec;
    assert start.scheds[s].ledger.sleepers == 0;
    ForgettingIsExact(start, run, s);
  }

  /** So a scheduler with a private thread that is not stopped now has somebody running who will
      wake its sleepers. */
  lemma SomebodyWillWake(w: World, start: World, run: seq<Action>, s: Sid)
    requires Reached(w, start, run) && s < |start.scheds| && NeverForgets(start, run, s) && s < |w.scheds|
    requires var x := w.scheds[s];
             x.pc.Free? && x.threadCount > 0 && x.threads.stopCount == 0 && x.ledger.sleepers > 0 && !x.emptyEvent
    ensures w.scheds[s].threads.running != []
  {
    hide Exec, Init;
    SleepersHaveWork(w, start, run, s);
    CountersAgree(w, start, run, s);
    if w.scheds[s].queue.jobs != [] {
      NoStrandedWork(w, start, run, s);
    }
  }

  /** A scheduler in the middle of returning a thread never waits for itself, and is not
      going to be notified either. */
  lemma NotifierNotStarving(w: World, start: World, run: seq<Action>, s: Sid)
    requires Reached(w, start, run) && s < |w.scheds| && w.scheds[s].pc.Handing?
    ensures var b := w.scheds[s].pc.to;
            && b < |w.scheds| && b != s && w.scheds[b].threads.starved && b !in w.pool.starving
            && !w.scheds[s].threads.starved && s !in w.pool.starving
            && forall r: Sid :: r < |w.scheds| && r != s ==> w.scheds[r].pc != Handing(b) && w.scheds[r].pc != Handing(s)
  {
    ReachedInv(w, start, run);
    NotifierFacts(w, s);
    hide Inv, Exec, Init;
  }

  lemma NotifierFacts(w: World, s: Sid)
    requires Inv(w) && s < |w.scheds| && w.scheds[s].pc.Handing?
    ensures var b := w.scheds[s].pc.to;
            && b < |w.scheds| && b != s && w.scheds[b].threads.starved && b !in w.pool.starving
            && !w.scheds[s].threads.starved && s !in w.pool.starving
            && forall r: Sid :: r < |w.scheds| && r != s ==> w.scheds[r].pc != Handing(b) && w.scheds[r].pc != Handing(s)
  {
    hide SchedInv, PoolInv, Places.Exact, NoDup;
    assert SchedInv(w.scheds[s]);
    GiverNotStarved(w.scheds[s]);
    var h := HungerOf(w);
    assert forall r: Sid :: r < |w.scheds| ==> h.handing[r] == HandingOf(w.scheds[r]) && h.starved[r] == w.scheds[r].threads.starved;
    assert h.HandingOk() && h.QueueOk();
    assert h.handing[s] == Option.Some(w.scheds[s].pc.to);
    hide Hunger.Known, Hunger.QueueOk;
    forall r: Sid | r < |w.scheds| && r != s
      ensures w.scheds[r].pc != Handing(w.scheds[s].pc.to) && w.scheds[r].pc != Handing(s)
    {
      assert h.handing[r] == HandingOf(w.scheds[r]);
    }
  }

  lemma GiverNotStarved(x: Sched)
    requires SchedInv(x) && x.pc.Returned()
    ensures !x.threads.starved
  {
  }
}
