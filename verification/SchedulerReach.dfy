/** Runs that are put together step by step: schedulers take on jobs until they hold as many
    threads as wanted, and the pool is empty. */
module SchedulerReach {
  import opened Options
  import opened SchedulerModel
  import opened SharedPool
  import opened SchedulerWorld
  import opened SchedulerRuns
  import opened SchedulerTheorems
  import opened SchedulerCapacity

  /** `run` leaves the size of the pool alone and leads from `w` to `w'`. */
  ghost predicate LeadsFixed(w: World, run: seq<Action>, w': World) {
    NoResize(run) && Leads(w, run, w')
  }

  lemma {:induction false} LeadsSound(w: World, run: seq<Action>, w': World)
    requires Sound(w) && LeadsFixed(w, run, w')
    ensures Sound(w') && SameMakes(w, w') && w'.pool.maxCount == w.pool.maxCount
    ensures w.PoolFree() ==> w'.PoolFree()
    decreases |run|
  {
    hide Inv, Next, Pool.Balanced, World.PoolFree;
    if |run| > 0 {
      PoolStaysFree(w, run[0]);
      NextKeeps(w, run[0]);
      BalanceKept(w, run[0]);
      Borrowing(w, run[0]);
      LeadsSound(Next(w, run[0]).value, run[1..], w');
    }
  }

  lemma Then(w: World, first: seq<Action>, w1: World, second: seq<Action>, w2: World)
    requires LeadsFixed(w, first, w1) && LeadsFixed(w1, second, w2)
    ensures LeadsFixed(w, first + second, w2)
  {
    hide Next;
    Runs.ExecJoin(Next, w, first, second);
  }

  lemma One(w: World, a: Action, w': World)
    requires Next(w, a) == Option.Some(w') && !a.DoSetCount?
    ensures LeadsFixed(w, [a], w')
  {
    hide Next;
    Runs.One(Next, w, a);
  }

  lemma Stay(w: World)
    ensures LeadsFixed(w, [], w)
  {
  }

  // ---------------------------------------------------------------- calm worlds

  predicate CalmSched(x: Sched) {
    x.pc.Free? && x.threads.stopCount == 0 && x.ledger.hands == [] && !x.threads.starved
  }

  /** Between sections, with nobody stopped or starved and no job begun. */
  ghost predicate Calm(w: World) {
    Sound(w) && w.pool.starving == [] && forall s: Sid :: s < |w.scheds| ==> CalmSched(w.scheds[s])
  }

  lemma CalmPut(w: World, run: seq<Action>, s: Sid, w': World)
    requires Calm(w) && s < |w.scheds| && LeadsFixed(w, run, w')
    requires |w'.scheds| == |w.scheds| && w'.scheds == w.scheds[s := w'.scheds[s]]
    requires CalmSched(w'.scheds[s]) && w'.pool.starving == []
    ensures Calm(w')
  {
    hide Sound, LeadsFixed;
    LeadsSound(w, run, w');
  }

  lemma CalmStart(start: World)
    requires Init(start)
    ensures Calm(start)
  {
    InitKeeps(start);
    hide Inv;
  }

  const J: Job := Job(0, false)

  /** Schedule, up to the decision about one more thread. */
  function Offered(x: Sched): Sched { Enqueue(Announce(x, J), J) }

  lemma Offer(w: World, s: Sid)
    requires s < |w.scheds| && w.scheds[s].pc.Free?
    ensures LeadsFixed(w, [DoAnnounce(s, J), DoEnqueue(s, J)], Put(w, s, Offered(w.scheds[s])))
  {
    hide LeadsFixed;
    var x := w.scheds[s];
    var w1 := Put(w, s, Announce(x, J));
    One(w, DoAnnounce(s, J), w1);
    assert w1.scheds[s := Offered(x)] == w.scheds[s := Offered(x)];
    One(w1, DoEnqueue(s, J), Put(w, s, Offered(x)));
    Then(w, [DoAnnounce(s, J)], w1, [DoEnqueue(s, J)], Put(w, s, Offered(x)));
    assert [DoAnnounce(s, J)] + [DoEnqueue(s, J)] == [DoAnnounce(s, J), DoEnqueue(s, J)];
  }

  /** A scheduler about to ask for a thread, otherwise as `x` but for its jobs. */
  predicate Asking(x: Sched, y: Sched) {
    && y.pc == Allocating(AfterSchedule) && y.threads == x.threads && y.ledger.hands == x.ledger.hands
    && y.threadCount == x.threadCount && y.aggressive == x.aggressive && y.queue.jobs != []
  }

  /** Jobs are queued until the backlog calls for one more thread. */
  lemma Pile(w: World, s: Sid) returns (run: seq<Action>, w': World)
    requires Calm(w) && s < |w.scheds| && w.scheds[s].threads.unusedCount > 0
    ensures LeadsFixed(w, run, w') && |w'.scheds| == |w.scheds| && w' == Put(w, s, w'.scheds[s])
    ensures Asking(w.scheds[s], w'.scheds[s])
    decreases if |w.scheds[s].queue.jobs| > 2 * w.scheds[s].threads.runningCount then 0
              else 2 * w.scheds[s].threads.runningCount - |w.scheds[s].queue.jobs| + 1
  {
    hide LeadsFixed, Sound;
    var x := w.scheds[s];
    var y := Offered(x);
    Offer(w, s);
    run, w' := [DoAnnounce(s, J), DoEnqueue(s, J)], Put(w, s, y);
    if !y.pc.Allocating? {
      CalmPut(w, run, s, w');
      var more, w2 := Pile(w', s);
      Then(w, run, w', more, w2);
      assert w2.scheds == w.scheds[s := w2.scheds[s]];
      run, w' := run + more, w2;
    }
  }

  lemma Fresh(owner: map<Tid, Option<Sid>>) returns (t: Tid)
    ensures t !in owner
  {
    t := Bound(owner.Keys);
  }

  lemma Bound(s: set<Tid>) returns (n: nat)
    ensures forall t :: t in s ==> t < n
    decreases |s|
  {
    if |s| == 0 {
      n := 0;
    } else {
      var t :| t in s;
      var m := Bound(s - {t});
      n := if m > t then m else t + 1;
      assert forall u :: u in s ==> u == t || u in s - {t};
    }
  }

  // ---------------------------------------------------------------- one more thread

  /** The private threads that are not running. */
  function Idle(x: Sched): int { x.threads.suspendedCount + x.threads.yetToCreate }

  /** `s` has got one more thread: one of its own if any is idle, and else a shared one. */
  ghost predicate Grown(w: World, s: Sid, w': World)
    requires s < |w.scheds|
  {
    && |w'.scheds| == |w.scheds| && w'.scheds == w.scheds[s := w'.scheds[s]]
    && var x, x' := w.scheds[s], w'.scheds[s];
       CalmSched(x') && w'.pool.starving == w.pool.starving
       && if x.threads.NoneIdle()
          then x'.threads.fromShared == x.threads.fromShared + 1 && x'.threads.NoneIdle()
               && w'.pool.allocCount == w.pool.allocCount + 1
          else x'.threads.fromShared == x.threads.fromShared && w'.pool == w.pool
               && Idle(x') == Idle(x) - 1
  }

  lemma Counts(x: Sched)
    requires SchedInv(x)
    ensures x.threads.suspendedCount >= 0 && x.threads.yetToCreate >= 0 && x.threads.fromShared >= 0
    ensures x.threads.suspendedCount > 0 ==> |x.threads.suspended| > 0
    ensures x.threads.unusedCount == Idle(x) + x.threads.maxFromShared - x.threads.fromShared
    ensures x.threads.fromShared > 0 ==> x.threads.NoneIdle()
    ensures x.threads.fromShared <= x.threads.maxFromShared
    ensures x.threads.runningCount + Idle(x) == x.threadCount + x.threads.fromShared
    ensures x.pc.Free? ==> |x.threads.running| == x.threads.runningCount
  {
  }

  lemma CountsOf(w: World, s: Sid)
    requires Sound(w) && s < |w.scheds|
    ensures SchedInv(w.scheds[s])
  {
    hide SchedInv;
  }

  lemma Got(w: World, s: Sid, anew: Tid)
    requires s < |w.scheds| && w.scheds[s].pc == Allocating(AfterSchedule) && anew !in w.owner && w.PoolFree()
    requires var th := w.scheds[s].threads;
             && th.suspendedCount >= 0 && th.yetToCreate >= 0 && !th.starved
             && (th.suspendedCount > 0 ==> |th.suspended| > 0)
             && (th.NoneIdle() ==> th.fromShared < th.maxFromShared && !w.pool.Exhausted())
    requires w.scheds[s].threads.stopCount == 0 && w.scheds[s].ledger.hands == []
    ensures Next(w, DoAllocate(s, anew)).Some? && Grown(w, s, Next(w, DoAllocate(s, anew)).value)
  {
    hide World.PoolFree;
  }

  lemma CalmIsFree(w: World)
    requires forall r: Sid :: r < |w.scheds| ==> !w.scheds[r].pc.Ending?
    ensures w.PoolFree()
  {
  }

  lemma Grow(w: World, s: Sid) returns (run: seq<Action>, w': World)
    requires Calm(w) && s < |w.scheds|
    requires w.scheds[s].threads.NoneIdle() ==>
               w.scheds[s].threads.fromShared < w.scheds[s].threads.maxFromShared && !w.pool.Exhausted()
    ensures LeadsFixed(w, run, w') && Calm(w') && Grown(w, s, w')
  {
    hide LeadsFixed, Sound, Next;
    var x := w.scheds[s];
    CountsOf(w, s);
    Counts(x);
    hide SchedInv;
    var w1;
    run, w1 := Pile(w, s);
    var anew := Fresh(w1.owner);
    CalmIsFree(w1);
    Got(w1, s, anew);
    w' := Next(w1, DoAllocate(s, anew)).value;
    One(w1, DoAllocate(s, anew), w');
    Then(w, run, w1, [DoAllocate(s, anew)], w');
    run := run + [DoAllocate(s, anew)];
    assert w'.scheds == w.scheds[s := w'.scheds[s]];
    CalmPut(w, run, s, w');
  }

  // ---------------------------------------------------------------- filling up

  /** Everybody but `s` is as before, and `s` has given nothing back. */
  ghost predicate OthersSame(w: World, s: Sid, w': World)
    requires s < |w.scheds|
  {
    |w'.scheds| == |w.scheds| && w'.scheds == w.scheds[s := w'.scheds[s]]
  }

  /** All private threads of `s` run. */
  lemma UsePrivate(w: World, s: Sid) returns (run: seq<Action>, w': World)
    requires Calm(w) && s < |w.scheds|
    ensures LeadsFixed(w, run, w') && Calm(w') && OthersSame(w, s, w') && w'.pool == w.pool
    ensures w'.scheds[s].threads.NoneIdle() && w'.scheds[s].threads.fromShared == w.scheds[s].threads.fromShared
    decreases if Idle(w.scheds[s]) < 0 then 0 else Idle(w.scheds[s])
  {
    hide LeadsFixed, Sound;
    CountsOf(w, s);
    Counts(w.scheds[s]);
    hide SchedInv;
    run, w' := [], w;
    Stay(w);
    assert w.scheds == w.scheds[s := w.scheds[s]];
    if !w.scheds[s].threads.NoneIdle() {
      var first, w1 := Grow(w, s);
      var more, w2 := UsePrivate(w1, s);
      Then(w, first, w1, more, w2);
      run, w' := first + more, w2;
      assert w2.scheds == w.scheds[s := w2.scheds[s]];
    }
  }

  /** `s` borrows until it holds `cap` threads or the pool is exhausted. */
  lemma Borrow(w: World, s: Sid, cap: int) returns (run: seq<Action>, w': World)
    requires Calm(w) && s < |w.scheds| && w.scheds[s].threads.NoneIdle()
    requires w.scheds[s].threads.fromShared <= cap <= w.scheds[s].threads.maxFromShared
    ensures LeadsFixed(w, run, w') && Calm(w') && OthersSame(w, s, w') && w'.scheds[s].threads.NoneIdle()
    ensures w.scheds[s].threads.fromShared <= w'.scheds[s].threads.fromShared <= cap
    ensures w'.pool.Exhausted() || w'.scheds[s].threads.fromShared == cap
    decreases cap - w.scheds[s].threads.fromShared
  {
    hide LeadsFixed, Sound, Pool.Exhausted;
    run, w' := [], w;
    Stay(w);
    assert w.scheds == w.scheds[s := w.scheds[s]];
    if !w.pool.Exhausted() && w.scheds[s].threads.fromShared < cap {
      var first, w1 := Grow(w, s);
      SameMax(w, first, w1, s);
      var more, w2 := Borrow(w1, s, cap);
      Then(w, first, w1, more, w2);
      run, w' := first + more, w2;
      assert w2.scheds == w.scheds[s := w2.scheds[s]];
    }
  }

  lemma RoomLeft(w: World)
    requires Sound(w) && w.pool.allocCount < w.pool.maxCount
    ensures !w.pool.Exhausted()
  {
  }

  /** `s` borrows its first thread. */
  lemma HoldOne(w: World, s: Sid) returns (run: seq<Action>, w': World)
    requires Calm(w) && s < |w.scheds| && w.pool.allocCount < w.pool.maxCount
    requires w.scheds[s].threads.fromShared == 0 < w.scheds[s].threads.maxFromShared
    ensures LeadsFixed(w, run, w') && Calm(w') && OthersSame(w, s, w') && SameMakes(w, w')
    ensures w'.scheds[s].threads.fromShared == 1
    ensures w'.pool.allocCount == w.pool.allocCount + 1 && w'.pool.maxCount == w.pool.maxCount
  {
    hide LeadsFixed, Sound, Pool.Exhausted;
    var first, w1 := UsePrivate(w, s);
    SameMax(w, first, w1, s);
    RoomLeft(w1);
    var more, w2 := Grow(w1, s);
    Then(w, first, w1, more, w2);
    run, w' := first + more, w2;
    LeadsSound(w, run, w');
    assert w'.scheds == w.scheds[s := w'.scheds[s]];
  }

  lemma SameMax(w: World, run: seq<Action>, w': World, s: Sid)
    requires Sound(w) && LeadsFixed(w, run, w') && s < |w.scheds|
    ensures |w'.scheds| == |w.scheds| && w'.pool.maxCount == w.pool.maxCount && SameMakes(w, w')
    ensures w'.scheds[s].threads.maxFromShared == w.scheds[s].threads.maxFromShared
    ensures w'.scheds[s].threadCount == w.scheds[s].threadCount
  {
    hide Sound, LeadsFixed;
    LeadsSound(w, run, w');
  }

  /** How many threads each scheduler is to borrow. */
  ghost predicate Within(w: World, caps: seq<int>) {
    |caps| == |w.scheds| && forall s: Sid :: s < |w.scheds| ==>
      w.scheds[s].threads.fromShared <= caps[s] <= w.scheds[s].threads.maxFromShared
  }

  /** One scheduler after the other borrows what it is to borrow, while the pool lasts. */
  lemma FillFrom(w: World, caps: seq<int>, i: nat) returns (run: seq<Action>, w': World)
    requires Calm(w) && Within(w, caps) && i <= |w.scheds|
    ensures LeadsFixed(w, run, w') && Calm(w') && |w'.scheds| == |w.scheds| && Within(w', caps)
    ensures forall s: Sid :: s < |w.scheds| ==> w'.scheds[s].threads.fromShared >= w.scheds[s].threads.fromShared
    ensures forall s: Sid :: s < i ==> w'.scheds[s] == w.scheds[s]
    ensures w'.pool.Exhausted() || forall s: Sid :: i <= s < |w.scheds| ==> w'.scheds[s].threads.fromShared == caps[s]
    decreases |w.scheds| - i
  {
    hide LeadsFixed, Sound, Calm, Pool.Exhausted;
    run, w' := [], w;
    Stay(w);
    if i < |w.scheds| && !w.pool.Exhausted() {
      var r1, w1 := UsePrivate(w, i);
      CalmSame(w, r1, w1, i);
      var r2, w2 := Borrow(w1, i, caps[i]);
      Then(w, r1, w1, r2, w2);
      CalmSame(w, r1 + r2, w2, i);
      run, w' := r1 + r2, w2;
      if !w2.pool.Exhausted() {
        var r3, w3 := FillFrom(w2, caps, i + 1);
        Then(w, run, w2, r3, w3);
        run, w' := run + r3, w3;
      }
    }
  }

  lemma CalmSame(w: World, run: seq<Action>, w': World, s: Sid)
    requires Calm(w) && LeadsFixed(w, run, w') && s < |w.scheds|
    ensures |w'.scheds| == |w.scheds| && w'.scheds[s].threads.maxFromShared == w.scheds[s].threads.maxFromShared
  {
    hide Sound, LeadsFixed;
    SameMax(w, run, w', s);
  }

  function Sum(caps: seq<int>): int { if |caps| == 0 then 0 else caps[0] + Sum(caps[1..]) }

  lemma {:induction false} SumIsLent(scheds: seq<Sched>, caps: seq<int>)
    requires |scheds| == |caps|
    requires forall s: Sid :: s < |scheds| ==> scheds[s].pc.Free? && scheds[s].threads.fromShared == caps[s]
    ensures SumLent(scheds) == Sum(caps)
  {
    if |scheds| > 0 {
      SumIsLent(scheds[1..], caps[1..]);
    }
  }

  /** If there is enough to borrow, the pool gets exhausted. */
  lemma Fill(w: World, caps: seq<int>) returns (run: seq<Action>, w': World)
    requires Calm(w) && Within(w, caps) && Sum(caps) >= w.pool.maxCount
    ensures LeadsFixed(w, run, w') && Calm(w') && |w'.scheds| == |w.scheds| && Within(w', caps) && w'.pool.Exhausted()
    ensures forall s: Sid :: s < |w.scheds| ==> w'.scheds[s].threads.fromShared >= w.scheds[s].threads.fromShared
  {
    run, w' := FillFrom(w, caps, 0);
    hide Inv, LeadsFixed, SumLent, Sum;
    LeadsSound(w, run, w');
    if forall s: Sid :: s < |w.scheds| ==> w'.scheds[s].threads.fromShared == caps[s] {
      SumIsLent(w'.scheds, caps);
      LentIsAlloc(w');
    }
  }

  lemma LentIsAlloc(w: World)
    requires Inv(w)
    ensures SumLent(w.scheds) == w.pool.allocCount && w.pool.yetToCreate >= 0
  {
  }

  /** Everybody may borrow as much as possible, but `s` only `cap`. */
  function CapsBut(scheds: seq<Sched>, s: Sid, cap: int): (caps: seq<int>)
    ensures |caps| == |scheds|
    ensures forall r: Sid :: r < |scheds| ==> caps[r] == if r == s then cap else scheds[r].threads.maxFromShared
  {
    seq(|scheds|, r requires 0 <= r < |scheds| => if r == s then cap else scheds[r].threads.maxFromShared)
  }

  lemma {:induction false} SumCaps(scheds: seq<Sched>, caps: seq<int>, s: Sid, cap: int)
    requires |caps| == |scheds|
    requires forall r: Sid :: r < |scheds| ==> caps[r] == if r == s then cap else scheds[r].threads.maxFromShared
    ensures Sum(caps) == SumMax(scheds) + if s < |scheds| then cap - scheds[s].threads.maxFromShared else 0
  {
    if |scheds| > 0 {
      if s == 0 {
        SumCaps(scheds[1..], caps[1..], |scheds|, cap);
      } else {
        SumCaps(scheds[1..], caps[1..], s - 1, cap);
      }
    }
  }

  // ---------------------------------------------------------------- one starves

  /** `s` wants one more thread from the exhausted pool, and registers as starving. */
  lemma Starve(w: World, s: Sid) returns (run: seq<Action>, w': World)
    requires Calm(w) && s < |w.scheds| && w.pool.Exhausted()
    requires w.scheds[s].threads.NoneIdle() && w.scheds[s].threads.fromShared < w.scheds[s].threads.maxFromShared
    ensures LeadsFixed(w, run, w') && OthersSame(w, s, w') && w'.pool == w.pool.(starving := [s])
    ensures var x, x' := w.scheds[s], w'.scheds[s];
            && x'.pc.Free? && x'.threads == x.threads.(starved := true) && x'.ledger.hands == [] && x'.queue.jobs != []
  {
    hide LeadsFixed, Sound, Next;
    var x := w.scheds[s];
    CountsOf(w, s);
    Counts(x);
    hide SchedInv;
    var w1;
    run, w1 := Pile(w, s);
    CalmIsFree(w1);
    var y := w1.scheds[s];
    var y1 := y.(threads := y.threads.(starved := true), pc := Registering(AfterSchedule));
    var w2 := Put(w1, s, y1);
    var w3 := Put(w2, s, y1.(pc := Free)).(pool := w2.pool.AddStarving(s));
    CalmIsFree(w2);
    Refused(w1, s);
    Registered(w2, s);
    One(w1, DoAllocate(s, 0), w2);
    One(w2, DoRegister(s), w3);
    Then(w1, [DoAllocate(s, 0)], w2, [DoRegister(s)], w3);
    Then(w, run, w1, [DoAllocate(s, 0)] + [DoRegister(s)], w3);
    run, w' := run + ([DoAllocate(s, 0)] + [DoRegister(s)]), w3;
    assert w3.scheds == w.scheds[s := w3.scheds[s]];
  }

  lemma Refused(w: World, s: Sid)
    requires s < |w.scheds| && w.scheds[s].pc == Allocating(AfterSchedule) && w.PoolFree() && w.pool.Exhausted()
    requires w.scheds[s].threads.NoneIdle() && !w.scheds[s].threads.starved
    requires w.scheds[s].threads.fromShared < w.scheds[s].threads.maxFromShared
    ensures var y := w.scheds[s];
            Next(w, DoAllocate(s, 0))
            == Option.Some(Put(w, s, y.(threads := y.threads.(starved := true), pc := Registering(AfterSchedule))))
  {
    hide World.PoolFree;
  }

  lemma Registered(w: World, s: Sid)
    requires s < |w.scheds| && w.scheds[s].pc == Registering(AfterSchedule) && w.PoolFree()
    ensures Next(w, DoRegister(s))
         == Option.Some(Put(w, s, w.scheds[s].(pc := Free)).(pool := w.pool.AddStarving(s)))
  {
    hide World.PoolFree;
  }
}
