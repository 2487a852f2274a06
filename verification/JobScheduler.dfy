/** The job scheduler and the shared pool as the objects they are, updated in place. Every
    method is a run of the step model in which nobody else gets a turn. */
module JobScheduler {
  import opened Options
  import opened JobQueue
  import opened SchedulerModel
  import opened SchedulerSteps
  import opened SharedPool
  import opened SchedulerWorld
  import opened SchedulerRuns

  class ThreadPool {
    var idle: seq<Tid>
    var allocCount: int
    var maxCount: int
    var yetToCreate: int
    var starving: seq<Sid>
    var owner: map<Tid, Option<Sid>>   // the owner fields of all thread records
    var records: nat                   // every thread record so far has a smaller number

    function View(): Pool
      reads this
    {
      Pool(idle, allocCount, maxCount, yetToCreate, starving)
    }

    constructor ()
      ensures View() == Pool([], 0, 0, 0, []) && owner == map[] && Recorded()
    {
      idle, allocCount, maxCount, yetToCreate, starving, owner, records := [], 0, 0, 0, [], map[], 0;
    }

    ghost predicate Recorded()
      reads this
    {
      forall t :: t in owner ==> t < records
    }

    /** A thread record that did not exist before. */
    method NewRecord() returns (t: Tid)
      requires Recorded()
      modifies this`records
      ensures t == old(records) && t !in owner && records == t + 1 && Recorded()
    {
      t := records;
      records := records + 1;
    }

    method TryAlloc() returns (info: Option<Tid>)
      requires Recorded()
      modifies this`idle, this`allocCount, this`yetToCreate, this`records
      ensures info == if old(View()).Exhausted() then Option.None else Option.Some(old(View()).Offer(old(records)))
      ensures View() == if info.None? then old(View()) else old(View()).Lend()
      ensures old(idle) != [] ==> info == Option.Some(old(idle[|idle| - 1])) && idle == old(idle[..|idle| - 1])
      ensures old(idle) == [] ==> idle == [] && (info.Some? <==> old(yetToCreate) != 0)
      ensures yetToCreate == old(yetToCreate) - if old(idle) == [] && info.Some? then 1 else 0
      ensures allocCount == old(allocCount) + if info.Some? then 1 else 0
      ensures Recorded() && old(records) <= records && (info.Some? && old(idle) == [] ==> info.value < records)
    {
      if |idle| == 0 {
        if yetToCreate == 0 {
          return Option.None;
        }
        var anew := NewRecord();
        yetToCreate := yetToCreate - 1;
        allocCount := allocCount + 1;
        return Option.Some(anew);
      }
      info := Option.Some(idle[|idle| - 1]);
      idle := idle[..|idle| - 1];
      allocCount := allocCount + 1;
    }

    /** The part of Release that holds the pool's mutex. `notify` tells whether starving
        schedulers are looked for afterwards. A pool over its size deletes the thread, that is
        the calling worker, which is `stuck` then: it waits for its own end. */
    method Release(t: Tid) returns (notify: bool, stuck: bool)
      modifies this`idle, this`allocCount
      ensures View() == old(View()).TakeBack(t)
      ensures stuck <==> !old(View()).Keeps()
      ensures allocCount == old(allocCount) - 1 && (stuck <==> |old(idle)| + allocCount >= maxCount)
      ensures idle == if stuck then old(idle) else old(idle) + [t]
      ensures notify <==> !stuck && starving != []
    {
      allocCount := allocCount - 1;
      notify, stuck := false, true;
      if |idle| + allocCount < maxCount {
        idle := idle + [t];
        notify, stuck := |starving| > 0, false;
      }
    }

    method SelectStarving() returns (scheduler: Option<Sid>)
      modifies this`starving
      ensures scheduler == if old(starving) != [] && idle != [] then Option.Some(old(starving)[0]) else Option.None
      ensures starving == if scheduler.None? then old(starving) else old(starving)[1..]
    {
      if |starving| == 0 || |idle| == 0 {
        return Option.None;
      }
      scheduler := Option.Some(starving[0]);
      starving := starving[1..];
    }

    method AddStarving(s: Sid)
      modifies this`starving
      ensures View() == old(View()).AddStarving(s) && starving == old(starving) + [s]
    {
      starving := starving + [s];
    }

    method RemoveStarving(s: Sid) returns (found: bool)
      modifies this`starving
      ensures View() == old(View()).RemoveStarving(s)
      ensures found <==> s in old(starving)
    {
      var all, kept := starving, [];
      for i := 0 to |all|
        invariant kept == Without(all[..i], s)
        invariant |kept| <= i && (|kept| == i <==> s !in all[..i])
      {
        WithoutNext(all[..i], all[i], s);
        assert all[..i + 1] == all[..i] + [all[i]];
        if all[i] != s {
          kept := kept + [all[i]];
        }
      }
      assert all[..|all|] == all;
      found := |kept| != |all|;
      starving := kept;
    }

    /** Drops idle threads until the new limit is met or none is left. */
    method SetThreadCount(count: nat)
      modifies this`maxCount, this`yetToCreate, this`idle, this`owner
      ensures View() == old(View()).SetCount(count)
      ensures owner == old(owner) - set t | t in old(idle)[old(View()).Surviving(count)..]
      ensures old(View()).Balanced() ==> (View().Balanced() <==> SafeToSet(old(View()), count))
    {
      ghost var idle0, n := idle, View().Surviving(count);
      SetCountIff(View(), count);
      maxCount := count;
      if |idle| + allocCount < maxCount {
        yetToCreate := maxCount - |idle| + allocCount;
      }
      while |idle| + allocCount > maxCount && |idle| > 0
        invariant n <= |idle| <= |idle0| && idle == idle0[..|idle|] && maxCount == count
        invariant yetToCreate == old(View()).SetCount(count).yetToCreate
        invariant owner == old(owner) - set t | t in idle0[|idle|..]
      {
        var last := |idle| - 1;
        assert idle0[last..] == [idle[last]] + idle0[|idle|..];
        owner := owner - {idle[last]};
        idle := idle[..last];
      }
    }
  }

  /** A scheduler on its own with the pool; it calls itself number 0 when it registers there. */
  class JobScheduler {
    const pool: ThreadPool
    const threadCount: nat
    const aggressive: bool
    const queue: CQueue<Job>
    var threads: Threads
    var emptyEvent: bool

    ghost var pc: Pc          // where the current section stands; Free outside of sections
    ghost var ledger: Ledger  // what became of the jobs

    ghost function View(): Sched
      reads this, queue, queue.data
      requires queue.Valid()
    {
      Sched(threadCount, aggressive, queue.View(), threads, emptyEvent, pc, ledger)
    }

    /** This scheduler and the pool, as a world of the step model. */
    ghost function Snapshot(): World
      reads this, queue, queue.data, pool
      requires queue.Valid()
    {
      World([View()], pool.View(), pool.owner)
    }

    ghost predicate Valid()
      reads this, queue, queue.data, pool
    {
      queue.Valid() && pool.Recorded() && Sound(Snapshot())
    }

    /** A pool that has no size yet gets one thread for each of the `cpus`. */
    constructor (threadCount: nat, sharedThreads: nat, aggressive: bool, fifo: bool, pool: ThreadPool, cpus: nat)
      requires pool.maxCount >= 0 && pool.owner == map[]
      requires pool.View() == Pool([], 0, pool.maxCount, pool.maxCount, [])
      modifies pool
      ensures Valid() && fresh(queue) && fresh(queue.data) && this.pool == pool
      ensures View() == NewSched(threadCount, sharedThreads, aggressive, fifo)
      ensures var size := if old(pool.maxCount) == 0 then cpus else old(pool.maxCount);
              pool.View() == Pool([], 0, size, size, []) && pool.owner == map[]
    {
      this.threadCount, this.aggressive, this.pool := threadCount, aggressive, pool;
      queue := new CQueue<Job>();
      threads := Threads([], [], 0, 0, threadCount, 0, sharedThreads, threadCount + sharedThreads, false, 0);
      emptyEvent, pc := false, Free;
      ledger := Ledger(multiset{}, multiset{}, [], multiset{}, multiset{}, 0, false);
      new;
      hide Sound, Init;
      queue.SetFifo(fifo);
      if pool.maxCount == 0 {
        pool.SetThreadCount(cpus);
      }
      NewIsSound(Snapshot(), sharedThreads);
    }

    /** Resumes a suspended private thread. */
    method WakeSuspended(ghost k: Cont) returns (ghost run: seq<Action>)
      requires Valid() && pc == Allocating(k) && threads.suspendedCount > 0
      modifies this`threads, this`pc
      ensures Ran(old(Snapshot()), run, Snapshot())
      ensures View() == Continue(old(View()).(threads := old(threads).WakeSuspended()), k, true)
    {
      hide Sound, Next, Leads;
      ghost var x, w := View(), Snapshot();
      Facts(w);
      NextWake(w, k);
      var info := threads.suspended[|threads.suspended| - 1];
      threads := threads.(suspended := threads.suspended[..|threads.suspended| - 1]);
      threads := threads.(suspendedCount := threads.suspendedCount - 1);
      threads := threads.(unusedCount := threads.unusedCount - 1);
      threads := threads.(runningCount := threads.runningCount + 1);
      threads := threads.(running := threads.running + [info]);
      assert threads == x.threads.WakeSuspended();
      pc := Continue(View(), k, true).pc;
      run := [DoAllocate(0, 0)];
      RanOne(w, run[0], Snapshot());
    }

    /** Starts a new private thread. */
    method StartPrivate(ghost k: Cont) returns (ghost run: seq<Action>)
      requires Valid() && pc == Allocating(k) && threads.suspendedCount == 0 && threads.yetToCreate > 0
      modifies this`threads, this`pc, pool
      ensures Ran(old(Snapshot()), run, Snapshot()) && pool.Recorded()
      ensures View() == Continue(old(View()).(threads := old(threads).StartPrivate(old(pool.records))), k, true)
    {
      hide Sound, Next, Leads;
      ghost var x, w := View(), Snapshot();
      threads := threads.(yetToCreate := threads.yetToCreate - 1);
      threads := threads.(unusedCount := threads.unusedCount - 1);
      threads := threads.(runningCount := threads.runningCount + 1);
      var info := pool.NewRecord();
      NextStart(w, k, info);
      pool.owner := pool.owner[info := Option.Some(0)];
      threads := threads.(running := threads.running + [info]);
      assert threads == x.threads.StartPrivate(info);
      pc := Continue(View(), k, true).pc;
      run := [DoAllocate(0, info)];
      RanOne(w, run[0], Snapshot());
    }

    /** Puts a thread to work that the pool has handed out. */
    method Adopt(info: Tid, ghost k: Cont)
      requires queue.Valid()
      modifies this`threads, this`pc, pool`owner
      ensures View() == Continue(old(View()).(threads := old(threads).TakeShared(info)), k, true)
      ensures pool.owner == old(pool.owner)[info := Option.Some(0)]
    {
      ghost var th := threads;
      threads := threads.(fromShared := threads.fromShared + 1);
      threads := threads.(unusedCount := threads.unusedCount - 1);
      threads := threads.(runningCount := threads.runningCount + 1);
      threads := threads.(running := threads.running + [info]);
      pool.owner := pool.owner[info := Option.Some(0)];
      assert threads == th.TakeShared(info);
      pc := Continue(View(), k, true).pc;
    }

    /** Registers as starving. */
    method Starve(ghost k: Cont)
      requires queue.Valid()
      modifies this`threads, this`pc, pool`starving
      ensures View() == Continue(old(View()).(threads := old(threads).(starved := true)), k, false)
      ensures pool.View() == old(pool.View()).AddStarving(0)
    {
      threads := threads.(starved := true);
      pool.AddStarving(0);
      pc := Continue(View(), k, false).pc;
    }

    /** Borrows a thread, or registers as starving; does neither if already registered. */
    method AllocateSharedThread(ghost k: Cont) returns (ok: bool, ghost run: seq<Action>)
      requires Valid() && pc == Allocating(k) && threads.NoneIdle() && threads.fromShared < threads.maxFromShared
      modifies this`threads, this`pc, pool
      ensures Ran(old(Snapshot()), run, Snapshot()) && pool.Recorded()
      ensures View() == Continue(old(View()).(threads := threads), k, ok) && threads.stopCount == old(threads.stopCount)
      ensures threads.runningCount == old(threads.runningCount) + if ok then 1 else 0
      ensures ok <==> old(!threads.starved && (pool.idle != [] || pool.yetToCreate != 0))
      ensures if ok then Joined(old(threads), threads) && threads.fromShared == old(threads.fromShared) + 1
              else threads == old(threads).(starved := true)
      ensures ok && old(pool.idle) != [] ==> threads.running[|threads.running| - 1] == old(pool.idle[|pool.idle| - 1])
    {
      hide Sound, Next, Leads;
      ghost var x, w := View(), Snapshot();
      if !threads.starved {
        ghost var anew := pool.records;
        var info := pool.TryAlloc();
        if info.Some? {
          IdleRecorded(w, pool.records);
          assert info.value < pool.records by {
            assert w.pool.idle != [] ==> info.value in w.pool.idle;
          }
          NextBorrow(w, k, anew);
          Adopt(info.value, k);
          run := [DoAllocate(0, anew)];
          RanOne(w, run[0], Snapshot());
          return true, run;
        } else {
          Starve(k);
          TwoSteps(w, k, anew);
          return false, [DoAllocate(0, anew), DoRegister(0)];
        }
      }
      NextFail(w, k);
      pc := Continue(x, k, false).pc;
      run := [DoAllocate(0, 0)];
      RanOne(w, run[0], Snapshot());
      ok := false;
    }

    /** A shared thread may be borrowed, and is there. */
    predicate CanBorrow()
      reads this, pool
    {
      && threads.fromShared < threads.maxFromShared && !threads.starved
      && (pool.idle != [] || pool.yetToCreate != 0)
    }

    /** Tries to resume or create a private thread, and else to borrow a shared one. */
    method AllocateThread(ghost k: Cont) returns (ok: bool, ghost run: seq<Action>)
      requires Valid() && pc == Allocating(k)
      modifies this`threads, this`pc, pool
      ensures Ran(old(Snapshot()), run, Snapshot()) && Valid()
      ensures View() == Continue(old(View()).(threads := threads), k, ok) && threads.stopCount == old(threads.stopCount)
      ensures threads.runningCount == old(threads.runningCount) + if ok then 1 else 0
      ensures ok <==> old(threads.suspended != [] || threads.yetToCreate > 0 || CanBorrow())
      ensures ok ==> Joined(old(threads), threads)
      ensures old(threads.suspended) != [] ==>
                && threads.running[|threads.running| - 1] == old(threads.suspended[|threads.suspended| - 1])
                && threads.suspended == old(threads.suspended[..|threads.suspended| - 1])
      ensures old(threads.suspended == [] && threads.yetToCreate > 0) ==>
                threads.yetToCreate == old(threads.yetToCreate) - 1 && threads.fromShared == old(threads.fromShared)
      ensures old(threads.suspended == [] && threads.yetToCreate == 0) && ok ==> threads.fromShared == old(threads.fromShared) + 1
      ensures !ok ==> threads == old(threads).(starved := threads.starved) && (threads.starved || threads.unusedCount == 0)
    {
      hide Sound, Next, Leads;
      ghost var x, w := View(), Snapshot();
      Facts(w);
      if threads.suspendedCount > 0 {
        run := WakeSuspended(k);
      } else if threads.yetToCreate > 0 {
        run := StartPrivate(k);
      } else {
        if threads.fromShared < threads.maxFromShared {
          ok, run := AllocateSharedThread(k);
          return;
        }
        NextFail(w, k);
        pc := Continue(x, k, false).pc;
        run := [DoAllocate(0, 0)];
        RanOne(w, run[0], Snapshot());
        return false, run;
      }
      ok := true;
    }

    /** Accepts one more job and gets one more thread if the backlog calls for it. */
    method Schedule(job: Job) returns (ghost run: seq<Action>)
      requires Valid() && pc.Free?
      modifies this`threads, this`emptyEvent, this`pc, this`ledger, pool, queue, queue.data
      ensures Valid() && pc.Free? && (queue.data == old(queue.data) || fresh(queue.data))
      ensures Section([DoAnnounce(0, job), DoEnqueue(0, job)], run)
      ensures Leads(old(Snapshot()), run, Snapshot())
      ensures queue.Contents() == old(queue.Contents()) + [job] && queue.fifo == old(queue.fifo)
      ensures var asks := old(threads.stopCount == 0
                  && (aggressive || (|queue.Contents()| + 1 > 2 * threads.runningCount && threads.unusedCount > 0)));
              var grows := asks && old(threads.suspended != [] || threads.yetToCreate > 0 || CanBorrow());
              && threads.runningCount == old(threads.runningCount) + (if grows then 1 else 0)
              && (asks && !grows ==> threads.unusedCount == 0 || threads.starved)
              && (!asks ==> threads == old(threads))
    {
      hide Sound, Next, Leads, Section;
      ghost var w := Snapshot();
      NextEnqueue(w, job);
      Append(job);
      run := [DoAnnounce(0, job), DoEnqueue(0, job)];
      SectionStart(run);
      if threads.stopCount != 0 {
        return;
      }
      var addThread := aggressive || (queue.Size() > 2 * threads.runningCount && threads.unusedCount > 0);
      if addThread {
        ghost var w1 := Snapshot();
        var _, more := AllocateThread(AfterSchedule);
        SectionMore([DoAnnounce(0, job), DoEnqueue(0, job)], run, more, w, w1, Snapshot());
        run := run + more;
      }
    }

    method Append(job: Job)
      requires queue.Valid()
      modifies this`emptyEvent, this`pc, this`ledger, queue, queue.data
      ensures queue.Valid() && (queue.data == old(queue.data) || fresh(queue.data))
      ensures View() == Enqueue(Announce(old(View()), job), job)
      ensures queue.Contents() == old(queue.Contents()) + [job] && queue.fifo == old(queue.fifo)
      ensures emptyEvent == (old(emptyEvent) && old(queue.Contents()) != [])
    {
      ghost var x := Announce(View(), job);
      ledger := x.ledger.(announced := x.ledger.announced - multiset{job});
      if queue.Empty() {
        emptyEvent := false;
      }
      queue.Push(job);
      pc := Enqueue(x, job).pc;
    }

    /** Gets threads for the backlog once the last Stop is taken back. */
    method Resume() returns (stopCount: int, ghost run: seq<Action>)
      requires Valid() && pc.Free? && threads.stopCount > 0
      modifies this`threads, this`pc, this`ledger, pool
      ensures Valid() && pc.Free? && stopCount == threads.stopCount == old(threads.stopCount) - 1
      ensures Section([DoResume(0)], run)
      ensures Leads(old(Snapshot()), run, Snapshot())
      ensures threads.stopCount == 0 ==>
                && (queue.Size() <= 4 * threads.runningCount || threads.unusedCount == 0 || threads.starved)
                && (aggressive ==> queue.Size() <= threads.runningCount || threads.unusedCount == 0 || threads.starved)
    {
      hide Sound, Next, Leads, Section;
      ghost var w := Snapshot();
      NextResume(w);
      threads := threads.(stopCount := threads.stopCount - 1);
      run := [DoResume(0)];
      SectionStart(run);
      if threads.stopCount == 0 {
        pc := Continue(View(), InResume, true).pc;
        RanOne(w, DoResume(0), Snapshot());
        Facts(Snapshot());
        while (queue.Size() > threads.runningCount && aggressive)
              || (queue.Size() > 4 * threads.runningCount && threads.unusedCount > 0)
          invariant Valid() && threads.stopCount == 0
          invariant pc == if ResumeWants(aggressive, queue.Size(), threads) then Allocating(InResume) else Free
          invariant threads.unusedCount >= 0
          invariant Section([DoResume(0)], run) && Leads(w, run, Snapshot())
          decreases queue.Size() - threads.runningCount
        {
          ghost var w1 := Snapshot();
          Facts(w1);
          var ok, more := AllocateThread(InResume);
          SectionMore([DoResume(0)], run, more, w, w1, Snapshot());
          run := run + more;
          if !ok {
            assert threads.starved || threads.unusedCount == 0;
            break;
          }
          Facts(Snapshot());
        }
      } else {
        RanOne(w, DoResume(0), Snapshot());
      }
      stopCount := threads.stopCount;
    }

    method Stop() returns (stopCount: int)
      requires Valid() && pc.Free?
      modifies this`threads, this`ledger
      ensures Valid() && stopCount == threads.stopCount == old(threads.stopCount) + 1
      ensures Leads(old(Snapshot()), [DoStop(0)], Snapshot())
    {
      hide Sound, Next, Leads;
      ghost var w := Snapshot();
      NextStop(w);
      threads := threads.(stopCount := threads.stopCount + 1);
      ledger := ledger.(everStopped := true);
      RanOne(w, DoStop(0), Snapshot());
      stopCount := threads.stopCount;
    }

    /** Takes up to all waiting jobs off one end, leaving at most `watermark`. */
    method RemoveJobFromQueue(watermark: nat, oldest: bool) returns (removed: seq<Job>)
      requires Valid() && pc.Free?
      modifies this`ledger, queue
      ensures Valid() && pc.Free?
      ensures Leads(old(Snapshot()), [DoRemove(0, watermark, oldest)], Snapshot())
      ensures OffOneEnd(old(queue.Contents()), removed, watermark, oldest == old(queue.fifo))
    {
      hide Sound, Next, Leads, OffOneEnd, RemoveJobs;
      ghost var w := Snapshot();
      NextRemove(w, watermark, oldest);
      removed := RemoveWaiting(watermark, oldest);
      RanOne(w, DoRemove(0, watermark, oldest), Snapshot());
    }

    method RemoveWaiting(watermark: nat, oldest: bool) returns (removed: seq<Job>)
      requires queue.Valid()
      modifies this`ledger, queue
      ensures queue.Valid() && queue.data == old(queue.data) && View() == RemoveJobs(old(View()), watermark, oldest)
      ensures OffOneEnd(old(queue.Contents()), removed, watermark, oldest == old(queue.fifo))
    {
      hide TakeOff, OffOneEnd, RemoveJobs;
      ghost var x := View();
      removed := [];
      if queue.Size() <= watermark {
        NothingRemoved(x, watermark, oldest);
        return;
      }
      var front := oldest == queue.fifo;
      removed := TakeOneEnd(queue.Size() - watermark, front);
      RemoveJobsAre(x, watermark, oldest, front, removed);
      ledger := ledger.(removed := ledger.removed + multiset(removed));
    }

    /** Takes jobs off one end, whatever the order of the queue. */
    method TakeOneEnd(toRemove: nat, front: bool) returns (removed: seq<Job>)
      requires queue.Valid() && toRemove <= |queue.Contents()|
      modifies queue
      ensures queue.Valid() && queue.data == old(queue.data)
      ensures var (q, out) := TakeOff(old(queue.View()).Do(SetFifo(front)), toRemove);
              queue.View() == q.Do(SetFifo(old(queue.fifo))) && removed == out
    {
      hide TakeOff;
      var fifo := queue.fifo;
      queue.SetFifo(front);
      removed := TakeWaiting(toRemove);
      queue.SetFifo(fifo);
    }

    method TakeWaiting(toRemove: nat) returns (removed: seq<Job>)
      requires queue.Valid() && toRemove <= |queue.Contents()|
      modifies queue`first, queue`last
      ensures queue.Valid() && (queue.View(), removed) == TakeOff(old(queue.View()), toRemove)
    {
      hide TakeOff;
      ghost var q := queue.View();
      removed := [];
      TakenNone(q, toRemove);
      for i := 0 to toRemove
        invariant queue.Valid() && |queue.Contents()| == |q.jobs| - i
        invariant TakeOff(q, toRemove) == Taken(queue.View(), toRemove - i, removed)
      {
        TakenNext(queue.View(), toRemove - i, removed);
        var job := queue.Pop();
        removed := removed + [job];
      }
      TakenAll(queue.View(), removed);
    }

    method DrainWaiting() returns (removed: seq<Job>)
      requires queue.Valid()
      modifies queue`first, queue`last
      ensures queue.Valid() && (queue.View(), removed) == TakeOff(old(queue.View()), |old(queue.Contents())|)
      ensures queue.Contents() == [] && multiset(removed) == multiset(old(queue.Contents()))
    {
      hide TakeOff;
      ghost var q := queue.View();
      removed := [];
      TakenNone(q, |q.jobs|);
      while !queue.Empty()
        invariant queue.Valid()
        invariant TakeOff(q, |q.jobs|) == Taken(queue.View(), |queue.Contents()|, removed)
        decreases queue.Size()
      {
        TakenNext(queue.View(), |queue.Contents()|, removed);
        var job := queue.Pop();
        removed := removed + [job];
      }
      TakenAll(queue.View(), removed);
      AllTaken(q);
    }

    method DrainIfStopped()
      requires queue.Valid()
      modifies this`ledger, queue`first, queue`last
      ensures queue.Valid() && View() == Drained(old(View()))
      ensures queue.Contents() == if threads.stopCount != 0 then [] else old(queue.Contents())
      ensures ledger == old(ledger).(removed := ledger.removed)
      ensures ledger.removed == old(ledger.removed) + (if threads.stopCount != 0 then multiset(old(queue.Contents())) else multiset{})
    {
      hide TakeOff;
      if threads.stopCount != 0 {
        var removed := DrainWaiting();
        ledger := ledger.(removed := ledger.removed + multiset(removed));
      }
    }

    /** One turn of the WaitForEmptyQueue loop: `done` ends it, else the caller goes to sleep. */
    method WaitTurn() returns (done: bool)
      requires Valid() && pc.Free?
      modifies this`emptyEvent, this`ledger, queue
      ensures Valid() && pc.Free? && (done <==> WaitReturns(old(View())))
      ensures Leads(old(Snapshot()), [DoWait(0)], Snapshot())
      ensures done <==> queue.Contents() == [] && threads.runningCount == 0
      ensures queue.Contents() == if threads.stopCount != 0 then [] else old(queue.Contents())
      ensures ledger.removed == old(ledger.removed) + (if threads.stopCount != 0 then multiset(old(queue.Contents())) else multiset{})
      ensures ledger.sleepers == old(ledger.sleepers) + (if done then 0 else 1) && emptyEvent == (done && old(emptyEvent))
    {
      hide Sound, Next, Leads, TakeOff;
      ghost var w := Snapshot();
      DrainIfStopped();
      NextWait(w);
      done := threads.runningCount == 0 && queue.Empty();
      if !done {
        emptyEvent := false;
        ledger := ledger.(sleepers := ledger.sleepers + 1);
      }
      RanOne(w, DoWait(0), Snapshot());
    }

    /** Unregisters from the starving list. The loop turns once when nobody else is notifying. */
    method StopStarvation()
      requires threads.starved ==> 0 in pool.starving
      modifies this`threads, pool`starving
      ensures threads == old(threads).(starved := false)
      ensures pool.View() == if old(threads).starved then old(pool.View()).RemoveStarving(0) else old(pool.View())
    {
      if threads.starved {
        var found := pool.RemoveStarving(0);
        if found {
          threads := threads.(starved := false);
        }
      }
    }

    /** Gives a borrowed thread back, after it has been taken off the running list. */
    method ReturnShared(t: Tid) returns (ghost run: seq<Action>)
      requires Valid() && pc == Unstarving(t)
      modifies this`threads, this`pc, this`emptyEvent, pool
      ensures Ran(old(Snapshot()), run, Snapshot()) && pool.Recorded()
      ensures View() == GiveDone(old(View()).(threads := old(threads).(starved := false)))
      ensures pool.owner == old(pool.owner)[t := Option.None] && pool.idle == old(pool.idle) + [t]
    {
      hide Sound, Next, Leads, Section, Ran, Pool.TakeBack, Pool.RemoveStarving, Pool.Keeps;
      ghost var w0, x := Snapshot(), View();
      Facts(w0);
      NextUnstarve(w0, t);
      assert t in pool.owner by { HeldHasRecord(w0, t); }
      StopStarvation();
      pool.owner := pool.owner[t := Option.None];
      ghost var y, w1 := x.(threads := threads, pc := Giving(t)), World([x.(threads := threads, pc := Giving(t))], pool.View(), pool.owner);
      RanOne(w0, DoUnstarve(0), w1);
      GiveAlone(w1, t);
      GiveBack(t);
      run := [DoUnstarve(0)] + [DoGive(0)];
      RanJoin(w0, [DoUnstarve(0)], w1, [DoGive(0)], Snapshot());
    }

    /** Hands a thread to a pool that has room and nobody to notify. */
    method GiveBack(t: Tid)
      requires queue.Valid() && pool.View().Keeps() && pool.starving == []
      modifies this`threads, this`pc, this`emptyEvent, pool`idle, pool`allocCount
      ensures View() == GiveDone(old(View()))
      ensures pool.View() == old(pool.View()).TakeBack(t) && pool.owner == old(pool.owner)
      ensures pool.idle == old(pool.idle) + [t]
    {
      var notify, stuck := pool.Release(t);
      assert !notify && !stuck;
      threads := threads.(fromShared := threads.fromShared - 1);
      RetireThread();
    }

    /** The last accounting of a thread that stops working; signals when it was the last one. */
    method RetireThread()
      requires queue.Valid()
      modifies this`threads, this`pc, this`emptyEvent
      ensures View() == Retire(old(View()), old(threads))
    {
      threads := threads.(unusedCount := threads.unusedCount + 1);
      threads := threads.(runningCount := threads.runningCount - 1);
      if threads.runningCount == 0 {
        emptyEvent := true;
      }
      pc := Free;
    }

    /** Gives an idle worker its next job, or takes it off the running list. */
    method AssignJob(info: Tid) returns (job: Option<Job>, terminate: bool, ghost run: seq<Action>)
      requires Valid() && pc.Free? && info in threads.running && !View().Busy(info)
      modifies this`threads, this`emptyEvent, this`pc, this`ledger, queue`first, queue`last, pool
      ensures Valid() && pc.Free?
      ensures OpenedByAssign(old(threads).running, info, run)
      ensures Leads(old(Snapshot()), run, Snapshot())
      ensures job.Some? <==> old(queue.Contents()) != [] && threads.stopCount == 0
      ensures ledger == if job.None? then old(ledger)
                        else old(ledger).(hands := old(ledger).hands + [Hand(info, job.value)])
      ensures job.None? ==> info !in threads.running && (terminate <==> info !in pool.owner)
      ensures job.None? ==> Left(aggressive, old(threads), old(pool.idle), threads, pool.idle, info, terminate)
      ensures job.None? ==> queue.Contents() == old(queue.Contents()) && emptyEvent == (old(emptyEvent) || threads.runningCount == 0)
      ensures job.Some? ==> threads == old(threads) && emptyEvent == old(emptyEvent)
      ensures job.Some? ==> var jobs := old(queue.Contents());
                job.value == jobs[if queue.fifo then 0 else |jobs| - 1]
                && queue.Contents() == if queue.fifo then jobs[1..] else jobs[..|jobs| - 1]
      ensures job.Some? ==> !terminate
    {
      hide Sound, Next, Leads, Section, Sched.Busy;
      ghost var x, w := View(), Snapshot();
      var i := IndexOf(threads.running, info);
      SectionStart([DoAssign(0, i)]);
      if queue.Empty() || threads.stopCount != 0 {
        terminate, run := SetIdle(info, i);
        job := Option.None;
      } else {
        NextAssign(w, i);
        var next := queue.Pop();
        ledger := ledger.(hands := ledger.hands + [Hand(info, next)]);
        run := [DoAssign(0, i)];
        RanOne(w, run[0], Snapshot());
        job, terminate := Option.Some(next), false;
      }
    }

    /** A worker has executed its job and called OnUnSchedule for it. */
    method FinishJob(info: Tid)
      requires Valid() && pc.Free? && View().Busy(info)
      modifies this`ledger
      ensures Valid() && !View().Busy(info)
      ensures exists i: nat :: i < |old(ledger.hands)| && old(ledger.hands)[i].thread == info
                && Leads(old(Snapshot()), [DoFinish(0, i)], Snapshot())
                && ledger.finished == old(ledger.finished) + multiset{old(ledger.hands)[i].job}
    {
      hide Sound, Next, Leads;
      ghost var x, w := View(), Snapshot();
      ghost var i: nat :| i < |x.ledger.hands| && x.ledger.hands[i].thread == info;
      NextFinish(w, i);
      ledger := SchedulerModel.FinishJob(x, i).ledger;
      RanOne(w, DoFinish(0, i), Snapshot());
      FreeAgain(w, i);
    }

    /** The worker thread's function: one job, or none, in which case it may end. */
    method ThreadFunc(info: Tid) returns (terminate: bool, executed: Option<Job>)
      requires Valid() && pc.Free? && info in threads.running && !View().Busy(info)
      modifies this`threads, this`emptyEvent, this`pc, this`ledger, queue`first, queue`last, pool
      ensures Valid() && pc.Free? && !View().Busy(info)
      ensures executed.Some? <==> old(queue.Contents()) != [] && threads.stopCount == 0
      ensures executed.None? ==> info !in threads.running
      ensures executed.Some? ==> ledger.finished == old(ledger.finished) + multiset{executed.value}
      ensures terminate ==> executed.None?
    {
      hide Sound, Next, Leads, OpenedByAssign;
      ghost var hands := ledger.hands;
      ghost var finished := ledger.finished;
      var job, ends, run := AssignJob(info);
      executed, terminate := job, ends;
      if job.Some? {
        assert ledger.hands[|hands|].thread == info;
        FinishJob(info);
      }
    }

    /** Takes a worker without a job off the running list: back to the pool if anything is
        borrowed, else to the suspended list, or away altogether. */
    method SetIdle(info: Tid, i: nat) returns (terminate: bool, ghost run: seq<Action>)
      requires Valid() && pc.Free? && (queue.Contents() == [] || threads.stopCount != 0)
      requires i < |threads.running| && threads.running[i] == info && !View().Busy(info)
      modifies this`threads, this`emptyEvent, this`pc, pool
      ensures Valid() && pc.Free? && threads.stopCount == old(threads.stopCount)
      ensures Section([DoAssign(0, i)], run)
      ensures Leads(old(Snapshot()), run, Snapshot())
      ensures info !in threads.running && (terminate <==> info !in pool.owner)
      ensures Left(aggressive, old(threads), old(pool.idle), threads, pool.idle, info, terminate)
      ensures emptyEvent == (old(emptyEvent) || threads.runningCount == 0)
    {
      hide Sound, Next, Leads, Section, Sched.Busy, Left;
      ghost var w := Snapshot();
      TakenOff(w, i);
      if threads.fromShared > 0 {
        run := ReturnIdle(info, i);
        terminate := false;
      } else {
        NextAssign(w, i);
        SectionStart([DoAssign(0, i)]);
        run := [DoAssign(0, i)];
        terminate := ParkIdle(info, i);
        RanOne(w, DoAssign(0, i), Snapshot());
      }
    }

    method ReturnIdle(info: Tid, i: nat) returns (ghost run: seq<Action>)
      requires Valid() && pc.Free? && (queue.Contents() == [] || threads.stopCount != 0) && threads.fromShared > 0
      requires i < |threads.running| && threads.running[i] == info && !View().Busy(info)
      modifies this`threads, this`emptyEvent, this`pc, pool
      ensures Valid() && pc.Free? && threads.stopCount == old(threads.stopCount)
      ensures Section([DoAssign(0, i)], run) && Leads(old(Snapshot()), run, Snapshot())
      ensures threads.running == SwapRemove(old(threads.running), i) && pool.owner == old(pool.owner)[info := Option.None]
      ensures Left(aggressive, old(threads), old(pool.idle), threads, pool.idle, info, false)
      ensures emptyEvent == (old(emptyEvent) || threads.runningCount == 0)
    {
      hide Sound, Next, Leads, Section, Sched.Busy, Left;
      ghost var x, w := View(), Snapshot();
      NextAssign(w, i);
      SectionStart([DoAssign(0, i)]);
      LeftForPool(aggressive, threads, pool.idle, i);
      run := [DoAssign(0, i)];
      threads := threads.(running := SwapRemove(threads.running, i));
      pc := Unstarving(info);
      ghost var w1 := Snapshot();
      RanOne(w, DoAssign(0, i), w1);
      ghost var more := ReturnShared(info);
      SectionMore([DoAssign(0, i)], run, more, w, w1, Snapshot());
      run := run + more;
    }

    method ParkIdle(info: Tid, i: nat) returns (terminate: bool)
      requires queue.Valid() && threads.fromShared <= 0 && i < |threads.running| && threads.running[i] == info
      modifies this`threads, this`emptyEvent, this`pc, pool`owner
      ensures View() == GoIdle(old(View()), i)
      ensures terminate == aggressive && pool.owner == if terminate then old(pool.owner) - {info} else old(pool.owner)
      ensures threads.running == SwapRemove(old(threads.running), i) && threads.stopCount == old(threads.stopCount) && pc.Free?
      ensures Left(aggressive, old(threads), pool.idle, threads, pool.idle, info, terminate)
      ensures emptyEvent == (old(emptyEvent) || threads.runningCount == 0)
    {
      hide Left;
      LeftParked(aggressive, threads, pool.idle, i);
      threads := threads.(running := SwapRemove(threads.running, i));
      terminate := Park(info);
    }

    /** A private thread without work is suspended, or ended if the scheduler keeps none. */
    method Park(info: Tid) returns (terminate: bool)
      requires queue.Valid()
      modifies this`threads, this`emptyEvent, this`pc, pool`owner
      ensures terminate == aggressive && pool.owner == if terminate then old(pool.owner) - {info} else old(pool.owner)
      ensures var th := old(threads);
              View() == Retire(old(View()),
                               if terminate then th.(yetToCreate := th.yetToCreate + 1)
                               else th.(suspended := th.suspended + [info], suspendedCount := th.suspendedCount + 1))
    {
      terminate := false;
      if aggressive {
        pool.owner := pool.owner - {info};
        threads := threads.(yetToCreate := threads.yetToCreate + 1);
        terminate := true;
      } else {
        threads := threads.(suspended := threads.suspended + [info]);
        threads := threads.(suspendedCount := threads.suspendedCount + 1);
      }
      RetireThread();
    }
  }

  /** What becomes of a worker that goes idle: it returns to the pool if any thread is borrowed, and
      else it is suspended, or ended if the scheduler keeps no idle threads. */
  predicate Left(aggressive: bool, before: Threads, idleBefore: seq<Tid>, after: Threads, idle: seq<Tid>, info: Tid,
                 terminate: bool)
  {
    && |after.running| == |before.running| - 1 && after.runningCount == before.runningCount - 1
    && after.unusedCount == before.unusedCount + 1
    && after.fromShared == before.fromShared - (if before.fromShared > 0 then 1 else 0)
    && idle == (if before.fromShared > 0 then idleBefore + [info] else idleBefore)
    && (terminate <==> before.fromShared <= 0 && aggressive)
    && after.yetToCreate == before.yetToCreate + (if terminate then 1 else 0)
    && after.suspended == if before.fromShared <= 0 && !terminate then before.suspended + [info] else before.suspended
  }

  lemma LeftForPool(aggressive: bool, th: Threads, idle: seq<Tid>, i: nat)
    requires i < |th.running| && th.fromShared > 0
    ensures var after := th.(running := SwapRemove(th.running, i), starved := false, fromShared := th.fromShared - 1,
                             unusedCount := th.unusedCount + 1, runningCount := th.runningCount - 1);
            Left(aggressive, th, idle, after, idle + [th.running[i]], th.running[i], false)
  {
  }

  lemma LeftParked(aggressive: bool, th: Threads, idle: seq<Tid>, i: nat)
    requires i < |th.running| && th.fromShared <= 0
    ensures var off := th.(running := SwapRemove(th.running, i), unusedCount := th.unusedCount + 1, runningCount := th.runningCount - 1);
            var after := if aggressive then off.(yetToCreate := th.yetToCreate + 1)
                         else off.(suspended := th.suspended + [th.running[i]], suspendedCount := th.suspendedCount + 1);
            Left(aggressive, th, idle, after, idle, th.running[i], aggressive)
  {
  }

  /** One thread more is running. */
  predicate Joined(before: Threads, after: Threads) {
    |after.running| == |before.running| + 1 && before.running <= after.running
  }

  /** The position of a thread in a list. */
  method IndexOf(threads: seq<Tid>, info: Tid) returns (i: nat)
    requires info in threads
    ensures i < |threads| && threads[i] == info
  {
    i := 0;
    while threads[i] != info
      invariant i < |threads| && info in threads[i..]
      decreases |threads| - i
    {
      i := i + 1;
    }
  }

  /** `removed` are the jobs beyond the watermark, taken off the front or the back in turn. */
  predicate OffOneEnd(jobs: seq<Job>, removed: seq<Job>, watermark: nat, front: bool) {
    && |removed| == (if |jobs| > watermark then |jobs| - watermark else 0)
    && forall i :: 0 <= i < |removed| ==> removed[i] == jobs[if front then i else |jobs| - 1 - i]
  }

  lemma OffOneEndTaken(q: Deque<Job>, watermark: nat)
    requires watermark < |q.jobs|
    ensures OffOneEnd(q.jobs, TakeOff(q, |q.jobs| - watermark).1, watermark, q.fifo)
  {
    TakeOffEnds(q, |q.jobs| - watermark);
  }

  lemma NothingRemoved(s: Sched, watermark: nat, oldest: bool)
    requires |s.queue.jobs| <= watermark
    ensures RemoveJobs(s, watermark, oldest) == s && OffOneEnd(s.queue.jobs, [], watermark, oldest == s.queue.fifo)
  {
  }

  lemma RemoveJobsAre(s: Sched, watermark: nat, oldest: bool, front: bool, out: seq<Job>)
    requires watermark < |s.queue.jobs| && front == (oldest == s.queue.fifo)
    requires out == TakeOff(s.queue.Do(SetFifo(front)), |s.queue.jobs| - watermark).1
    ensures RemoveJobs(s, watermark, oldest)
         == s.(queue := TakeOff(s.queue.Do(SetFifo(front)), |s.queue.jobs| - watermark).0.Do(SetFifo(s.queue.fifo)),
               ledger := s.ledger.(removed := s.ledger.removed + multiset(out)))
    ensures OffOneEnd(s.queue.jobs, out, watermark, oldest == s.queue.fifo)
  {
    hide TakeOff, OffOneEnd;
    OffOneEndTaken(s.queue.Do(SetFifo(front)), watermark);
  }

  lemma AllTaken(q: Deque<Job>)
    ensures multiset(TakeOff(q, |q.jobs|).1) == multiset(q.jobs)
  {
    TakeOffConserves(q, |q.jobs|);
  }

  /** What TakeOff yields when `out` has been taken off already and `n` more are to come. */
  function Taken(q: Deque<Job>, n: nat, out: seq<Job>): (Deque<Job>, seq<Job>)
    requires n <= |q.jobs|
  {
    (TakeOff(q, n).0, out + TakeOff(q, n).1)
  }

  lemma TakenNone(q: Deque<Job>, n: nat)
    requires n <= |q.jobs|
    ensures Taken(q, n, []) == TakeOff(q, n)
  {
    assert [] + TakeOff(q, n).1 == TakeOff(q, n).1;
  }

  lemma TakenNext(q: Deque<Job>, n: nat, out: seq<Job>)
    requires 0 < n <= |q.jobs|
    ensures Taken(q, n, out) == Taken(q.Do(Pop), n - 1, out + q.Out(Pop))
  {
    assert out + (q.Out(Pop) + TakeOff(q.Do(Pop), n - 1).1) == (out + q.Out(Pop)) + TakeOff(q.Do(Pop), n - 1).1;
  }

  lemma TakenAll(q: Deque<Job>, out: seq<Job>)
    ensures Taken(q, 0, out) == (q, out)
  {
    assert out + [] == out;
  }

  /** The actions inside a section, after the one that opened it. */
  predicate Inner(a: Action) {
    a.s == 0 && (a.DoAllocate? || a.DoRegister? || a.DoUnstarve? || a.DoGive? || a.DoSelect?)
  }

  /** `run` opens with `first` and goes on inside the section that this has entered. */
  predicate Section(first: seq<Action>, run: seq<Action>) {
    first <= run && forall i :: |first| <= i < |run| ==> Inner(run[i])
  }

  ghost predicate OpenedByAssign(running: seq<Tid>, info: Tid, run: seq<Action>) {
    exists i: nat :: i < |running| && running[i] == info && Section([DoAssign(0, i)], run)
  }

  /** A stretch of a section that led from one well-formed world to another. */
  ghost predicate Ran(w: World, run: seq<Action>, w': World) {
    Section([], run) && Leads(w, run, w') && Sound(w')
  }

  lemma RanOne(w: World, a: Action, w': World)
    requires Sound(w) && Next(w, a) == Option.Some(w') && !a.DoSetCount?
    ensures Sound(w') && Leads(w, [a], w')
    ensures Inner(a) ==> Ran(w, [a], w')
  {
    hide Inv, Next;
    Runs.One(Next, w, a);
    BalanceKept(w, a);
    NextKeeps(w, a);
  }

  lemma SectionStart(run: seq<Action>)
    ensures Section(run, run)
  {
  }

  lemma SectionMore(first: seq<Action>, run: seq<Action>, more: seq<Action>, w: World, w1: World, w2: World)
    requires Section(first, run) && Leads(w, run, w1) && Ran(w1, more, w2)
    ensures Section(first, run + more) && Leads(w, run + more, w2)
  {
    hide Sound, Next;
    Runs.ExecJoin(Next, w, run, more);
  }

  lemma NewIsSound(w: World, shared: nat)
    requires |w.scheds| == 1 && w.owner == map[] && w.pool.maxCount >= 0
    requires w.pool == Pool([], 0, w.pool.maxCount, w.pool.maxCount, [])
    requires var x := w.scheds[0]; x == NewSched(x.threadCount, shared, x.aggressive, x.queue.fifo)
    ensures Sound(w)
  {
    InitKeeps(w);
  }

  lemma NextFinish(w: World, i: nat)
    requires |w.scheds| == 1 && i < |w.scheds[0].ledger.hands|
    ensures Next(w, DoFinish(0, i)) == Option.Some(World([FinishJob(w.scheds[0], i)], w.pool, w.owner))
  {
    PutOnly(w, FinishJob(w.scheds[0], i));
  }

  /** A worker has one job at a time. */
  lemma FreeAgain(w: World, i: nat)
    requires Sound(w) && |w.scheds| == 1 && i < |w.scheds[0].ledger.hands|
    ensures !FinishJob(w.scheds[0], i).Busy(w.scheds[0].ledger.hands[i].thread)
  {
    var x := w.scheds[0];
    assert SchedInv(x);
    hide Sound, Accounted, Backlog, Tallied, NobodyForgotten, NoDup;
    var hands, hands' := x.ledger.hands, FinishJob(x, i).ledger.hands;
    assert forall k :: 0 <= k < |hands'| ==> hands'[k] == hands[if k < i then k else k + 1];
  }

  /** What the invariant says of a scheduler on its own. */
  lemma Facts(w: World)
    requires Sound(w) && |w.scheds| == 1
    ensures var th := w.scheds[0].threads;
            && th.suspendedCount == |th.suspended| && th.yetToCreate >= 0 && th.runningCount >= 0
            && th.unusedCount == th.suspendedCount + th.yetToCreate + th.maxFromShared - th.fromShared
            && 0 <= th.fromShared <= th.maxFromShared && th.unusedCount >= 0
    ensures forall b :: b in w.pool.starving ==> b == 0
    ensures w.scheds[0].threads.starved && !w.scheds[0].pc.Registering? ==> 0 in w.pool.starving
  {
    hide PoolInv, Places.Exact, NoDup, Backlog, Tallied, HandsOk, NobodyForgotten;
    var h := HungerOf(w);
    assert SchedInv(w.scheds[0]);
    assert Accounted(w.scheds[0]);
    assert h.Exact();
    assert h.starved[0] == w.scheds[0].threads.starved && h.registering[0] == w.scheds[0].pc.Registering?;
  }

  lemma IdleRecorded(w: World, n: nat)
    requires Sound(w) && forall t :: t in w.owner ==> t < n
    ensures forall t :: t in w.pool.idle ==> t < n
  {
    assert PlacesOf(w).Exact();
  }

  lemma PutOnly(w: World, y: Sched)
    requires |w.scheds| == 1
    ensures Put(w, 0, y) == World([y], w.pool, w.owner)
  {
    assert w.scheds[0 := y] == [y];
  }

  // What single steps do to a world of one scheduler.

  lemma NextWake(w: World, k: Cont)
    requires |w.scheds| == 1 && w.scheds[0].pc == Allocating(k)
    requires w.scheds[0].threads.suspendedCount > 0 && |w.scheds[0].threads.suspended| > 0
    ensures var x := w.scheds[0];
            Next(w, DoAllocate(0, 0))
            == Option.Some(World([Continue(x.(threads := x.threads.WakeSuspended()), k, true)], w.pool, w.owner))
  {
    PutOnly(w, Continue(w.scheds[0].(threads := w.scheds[0].threads.WakeSuspended()), k, true));
  }

  lemma NextStart(w: World, k: Cont, anew: Tid)
    requires |w.scheds| == 1 && w.scheds[0].pc == Allocating(k) && anew !in w.owner
    requires w.scheds[0].threads.suspendedCount == 0 && w.scheds[0].threads.yetToCreate > 0
    ensures var x := w.scheds[0];
            Next(w, DoAllocate(0, anew))
            == Option.Some(World([Continue(x.(threads := x.threads.StartPrivate(anew)), k, true)],
                                 w.pool, w.owner[anew := Option.Some(0)]))
  {
    PutOnly(w, Continue(w.scheds[0].(threads := w.scheds[0].threads.StartPrivate(anew)), k, true));
  }

  predicate WantsShared(x: Sched, k: Cont) {
    && x.pc == Allocating(k) && x.threads.NoneIdle()
    && x.threads.fromShared < x.threads.maxFromShared && !x.threads.starved
  }

  lemma NextBorrow(w: World, k: Cont, anew: Tid)
    requires |w.scheds| == 1 && WantsShared(w.scheds[0], k) && !w.pool.Exhausted() && anew !in w.owner
    ensures var x, t := w.scheds[0], w.pool.Offer(anew);
            Next(w, DoAllocate(0, anew))
            == Option.Some(World([Continue(x.(threads := x.threads.TakeShared(t)), k, true)],
                                 w.pool.Lend(), w.owner[t := Option.Some(0)]))
  {
    PutOnly(w, Continue(w.scheds[0].(threads := w.scheds[0].threads.TakeShared(w.pool.Offer(anew))), k, true));
  }

  lemma NextStarve(w: World, k: Cont, anew: Tid)
    requires |w.scheds| == 1 && WantsShared(w.scheds[0], k) && w.pool.Exhausted()
    ensures var x := w.scheds[0];
            Next(w, DoAllocate(0, anew))
            == Option.Some(World([x.(threads := x.threads.(starved := true), pc := Registering(k))], w.pool, w.owner))
  {
    PutOnly(w, w.scheds[0].(threads := w.scheds[0].threads.(starved := true), pc := Registering(k)));
  }

  /** The outcome of an attempt to borrow from an exhausted pool. */
  function Starved(w: World, k: Cont): World
    requires |w.scheds| == 1
  {
    var x := w.scheds[0].(threads := w.scheds[0].threads.(starved := true), pc := Registering(k));
    World([Continue(x, k, false)], w.pool.AddStarving(0), w.owner)
  }

  lemma TwoSteps(w: World, k: Cont, anew: Tid)
    requires |w.scheds| == 1 && WantsShared(w.scheds[0], k) && w.pool.Exhausted()
    requires Sound(w)
    ensures Ran(w, [DoAllocate(0, anew), DoRegister(0)], Starved(w, k))
  {
    hide Sound, Next;
    NextStarve(w, k, anew);
    var w1 := Next(w, DoAllocate(0, anew)).value;
    NextRegister(w1, k);
    RanOne(w, DoAllocate(0, anew), w1);
    RanOne(w1, DoRegister(0), Starved(w, k));
    Runs.ExecJoin(Next, w, [DoAllocate(0, anew)], [DoRegister(0)]);
    assert [DoAllocate(0, anew)] + [DoRegister(0)] == [DoAllocate(0, anew), DoRegister(0)];
  }

  lemma NextEnqueue(w: World, job: Job)
    requires |w.scheds| == 1 && w.scheds[0].pc.Free? && Sound(w)
    ensures var w' := World([Enqueue(Announce(w.scheds[0], job), job)], w.pool, w.owner);
            Leads(w, [DoAnnounce(0, job), DoEnqueue(0, job)], w') && Sound(w')
  {
    hide Sound, Runs.Exec;
    var y := Announce(w.scheds[0], job);
    PutOnly(w, y);
    var w1 := World([y], w.pool, w.owner);
    PutOnly(w1, Enqueue(y, job));
    RanOne(w, DoAnnounce(0, job), w1);
    RanOne(w1, DoEnqueue(0, job), World([Enqueue(y, job)], w.pool, w.owner));
    Runs.ExecJoin(Next, w, [DoAnnounce(0, job)], [DoEnqueue(0, job)]);
    assert [DoAnnounce(0, job)] + [DoEnqueue(0, job)] == [DoAnnounce(0, job), DoEnqueue(0, job)];
  }

  lemma NextResume(w: World)
    requires |w.scheds| == 1 && w.scheds[0].pc.Free? && w.scheds[0].threads.stopCount > 0
    ensures Next(w, DoResume(0)) == Option.Some(World([ResumeCall(w.scheds[0])], w.pool, w.owner))
  {
    PutOnly(w, ResumeCall(w.scheds[0]));
  }

  lemma NextRemove(w: World, watermark: nat, oldest: bool)
    requires |w.scheds| == 1 && w.scheds[0].pc.Free?
    ensures Next(w, DoRemove(0, watermark, oldest))
         == Option.Some(World([RemoveJobs(w.scheds[0], watermark, oldest)], w.pool, w.owner))
  {
    PutOnly(w, RemoveJobs(w.scheds[0], watermark, oldest));
  }

  lemma NextWait(w: World)
    requires |w.scheds| == 1 && w.scheds[0].pc.Free?
    ensures Next(w, DoWait(0)) == Option.Some(World([WaitTurn(w.scheds[0])], w.pool, w.owner))
  {
    PutOnly(w, WaitTurn(w.scheds[0]));
  }

  lemma NextUnstarve(w: World, t: Tid)
    requires |w.scheds| == 1 && w.scheds[0].pc == Unstarving(t)
    requires w.scheds[0].threads.starved ==> 0 in w.pool.starving
    ensures var x := w.scheds[0];
            Next(w, DoUnstarve(0))
            == Option.Some(World([x.(threads := x.threads.(starved := false), pc := Giving(t))],
                                 if x.threads.starved then w.pool.RemoveStarving(0) else w.pool,
                                 w.owner[t := Option.None]))
  {
    PutOnly(w, w.scheds[0].(threads := w.scheds[0].threads.(starved := false), pc := Giving(t)));
  }

  lemma NextAssign(w: World, i: nat)
    requires |w.scheds| == 1 && w.scheds[0].pc.Free? && i < |w.scheds[0].threads.running|
    requires !w.scheds[0].Busy(w.scheds[0].threads.running[i])
    ensures var x := w.scheds[0];
            var t := x.threads.running[i];
            Next(w, DoAssign(0, i)) == Option.Some(
              if x.queue.jobs == [] || x.threads.stopCount != 0 then
                World([GoIdle(x, i)], w.pool,
                      if x.threads.fromShared <= 0 && x.aggressive then w.owner - {t} else w.owner)
              else World([TakeJob(x, t)], w.pool, w.owner))
  {
    var x := w.scheds[0];
    if x.queue.jobs == [] || x.threads.stopCount != 0 {
      PutOnly(w, GoIdle(x, i));
    } else {
      PutOnly(w, TakeJob(x, x.threads.running[i]));
    }
  }

  /** Nobody else can be starving and the pool has room, so handing a thread over ends at once. */
  lemma GiveAlone(w: World, t: Tid)
    requires Sound(w) && |w.scheds| == 1 && w.scheds[0].pc == Giving(t)
    ensures w.pool.starving == [] && w.pool.Keeps()
    ensures Ran(w, [DoGive(0)], World([GiveDone(w.scheds[0])], w.pool.TakeBack(t), w.owner))
  {
    RoomAlone(w);
    hide Sound, Exec, Ran;
    var w' := World([GiveDone(w.scheds[0])], w.pool.TakeBack(t), w.owner);
    assert Next(w, DoGive(0)) == Option.Some(w') by {
      PutOnly(w, GiveDone(w.scheds[0]));
    }
    hide Next;
    RanOne(w, DoGive(0), w');
  }

  lemma FirstIn(s: seq<Sid>)
    ensures s == [] || s[0] in s
  {
  }

  lemma RoomAlone(w: World)
    requires Sound(w) && |w.scheds| == 1 && w.scheds[0].pc.Giving?
    ensures w.pool.starving == [] && w.pool.Keeps()
  {
    hide AllSchedInv, Places.Exact, Hunger.Exact;
    assert PoolInv(w);
    assert w.pool.Keeps();
    hide Sound, PoolInv;
    Facts(w);
    NotQueued(w);
    FirstIn(w.pool.starving);
  }

  lemma HeldHasRecord(w: World, t: Tid)
    requires Sound(w) && |w.scheds| == 1 && t in w.scheds[0].Held()
    ensures t in w.owner
  {
    hide AllSchedInv, PoolInv, Hunger.Exact;
    var p := PlacesOf(w);
    assert p.Claimed() by { hide Places.Pooled, Places.Single; }
    hide Sound, Places.Exact;
    assert t in p.held[0];
  }

  /** A thread taken off the running list is not in it any more, and it has a record. */
  lemma TakenOff(w: World, i: nat)
    requires Sound(w) && |w.scheds| == 1 && i < |w.scheds[0].threads.running|
    ensures var running := w.scheds[0].threads.running;
            running[i] in w.owner && running[i] !in SwapRemove(running, i)
  {
    var x := w.scheds[0];
    assert SchedInv(x);
    HeldPrefix(x);
    SwapRemoveKeeps(x.threads.running, i);
    HeldHasRecord(w, x.threads.running[i]);
  }

  lemma NotQueued(w: World)
    requires Sound(w) && |w.scheds| == 1 && w.scheds[0].pc.Giving?
    ensures 0 !in w.pool.starving
  {
    var h := HungerOf(w);
    assert SchedInv(w.scheds[0]) && Accounted(w.scheds[0]);
    assert h.Exact();
    assert h.starved[0] == w.scheds[0].threads.starved;
  }

  lemma RanJoin(w: World, run: seq<Action>, w1: World, more: seq<Action>, w2: World)
    requires Ran(w, run, w1) && Ran(w1, more, w2)
    ensures Ran(w, run + more, w2)
  {
    hide Sound, Next;
    Runs.ExecJoin(Next, w, run, more);
  }

  lemma NextStop(w: World)
    requires |w.scheds| == 1 && w.scheds[0].pc.Free?
    ensures Next(w, DoStop(0)) == Option.Some(World([StopCall(w.scheds[0])], w.pool, w.owner))
  {
    PutOnly(w, StopCall(w.scheds[0]));
  }

  lemma NextRegister(w: World, k: Cont)
    requires |w.scheds| == 1 && w.scheds[0].pc == Registering(k)
    ensures Next(w, DoRegister(0))
         == Option.Some(World([Continue(w.scheds[0], k, false)], w.pool.AddStarving(0), w.owner))
  {
    PutOnly(w, Continue(w.scheds[0], k, false));
  }

  lemma NextFail(w: World, k: Cont)
    requires |w.scheds| == 1 && w.scheds[0].pc == Allocating(k) && w.scheds[0].threads.NoneIdle()
    requires w.scheds[0].threads.fromShared >= w.scheds[0].threads.maxFromShared || w.scheds[0].threads.starved
    ensures Next(w, DoAllocate(0, 0)) == Option.Some(World([Continue(w.scheds[0], k, false)], w.pool, w.owner))
  {
    PutOnly(w, Continue(w.scheds[0], k, false));
  }

  lemma SetCountIff(p: Pool, count: nat)
    ensures p.Balanced() ==> (p.SetCount(count).Balanced() <==> SafeToSet(p, count))
  {
    if p.Balanced() {
      SetCountExact(p, count);
    }
  }

  lemma {:induction false} WithoutNext(s: seq<Sid>, y: Sid, x: Sid)
    ensures Without(s + [y], x) == Without(s, x) + if y == x then [] else [y]
  {
    if |s| == 0 {
      assert s + [y] == [y];
    } else {
      assert (s + [y])[1..] == s[1..] + [y];
      WithoutNext(s[1..], y, x);
    }
  }
}
