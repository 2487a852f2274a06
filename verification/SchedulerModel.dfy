/** One job scheduler as a value: its counters and lists, where its mutex section stands,
    and the steps of that section which touch nothing but the scheduler itself. */
module SchedulerModel {
  import opened JobQueue

  type Tid = nat   // a worker thread
  type Sid = nat   // a scheduler

  datatype Job = Job(id: nat, owned: bool)

  /** The per-scheduler thread accounting. The counters are machine words that only ever
      move by one; they are integers here so that not wrapping below zero is a property. */
  datatype Threads = Threads(
    running: seq<Tid>, suspended: seq<Tid>,
    runningCount: int, suspendedCount: int,
    yetToCreate: int, fromShared: int, maxFromShared: int, unusedCount: int,
    starved: bool, stopCount: int)
  {
    /** No private thread is left that could be put to work. */
    predicate NoneIdle() { suspendedCount == 0 && yetToCreate == 0 }

    function WakeSuspended(): Threads
      requires |suspended| > 0
    {
      this.(suspended := suspended[..|suspended| - 1],
            suspendedCount := suspendedCount - 1,
            unusedCount := unusedCount - 1,
            runningCount := runningCount + 1,
            running := running + [suspended[|suspended| - 1]])
    }

    function StartPrivate(t: Tid): Threads {
      this.(yetToCreate := yetToCreate - 1,
            unusedCount := unusedCount - 1,
            runningCount := runningCount + 1,
            running := running + [t])
    }

    function TakeShared(t: Tid): Threads {
      this.(fromShared := fromShared + 1,
            unusedCount := unusedCount - 1,
            runningCount := runningCount + 1,
            running := running + [t])
    }

    /** The last accounting of a thread that stops working for this scheduler. */
    function Retired(): Threads {
      this.(unusedCount := unusedCount + 1, runningCount := runningCount - 1)
    }
  }

  /** The list entry at `i` is overwritten by the last one, which is then dropped. */
  function SwapRemove(s: seq<Tid>, i: nat): (r: seq<Tid>)
    requires i < |s|
    ensures |r| == |s| - 1
  {
    s[i := s[|s| - 1]][..|s| - 1]
  }

  ghost predicate NoDup<T>(s: seq<T>) {
    forall i, j :: 0 <= i < j < |s| ==> s[i] != s[j]
  }

  lemma SwapRemoveKeeps(s: seq<Tid>, i: nat)
    requires i < |s| && NoDup(s)
    ensures NoDup(SwapRemove(s, i))
    ensures forall t :: t in SwapRemove(s, i) <==> t in s && t != s[i]
  {
    var r := SwapRemove(s, i);
    forall t | t in s && t != s[i] ensures t in r {
      var k :| 0 <= k < |s| && s[k] == t;
      assert r[if k == |s| - 1 then i else k] == t;
    }
    forall t | t in r ensures t in s && t != s[i] {
      var k :| 0 <= k < |r| && r[k] == t;
      assert t == s[if k == i then |s| - 1 else k];
    }
  }

  /** Who asked for a further thread, and so what happens after the attempt. */
  datatype Cont = AfterSchedule | InResume | Serving(giver: Sid)

  /** How far the section that currently holds the scheduler's mutex has come. */
  datatype Pc =
    | Free                          // nobody holds the mutex
    | Allocating(k: Cont)           // about to run AllocateThread
    | Registering(k: Cont)          // the pool had no thread; about to queue up as starving
    | Unstarving(t: Tid)            // t is idle; in StopStarvation
    | Giving(t: Tid)                // about to hand t to the pool
    | Ending(t: Tid)                // the pool is over its size: t waits for its own end
    | Notifying                     // t was handed over; about to look for a starving scheduler
    | Handing(to: Sid)              // `to` was selected; waiting for its mutex
    | AwaitingService(to: Sid)      // inside ThreadAvailable of `to`
  {
    /** A borrowed thread has left `running`, but the counters do not show it yet. */
    predicate Leaving() {
      Unstarving? || Giving? || Returned()
    }

    /** Neither a thread nor a notification is in anybody's hands here. */
    predicate Quiet() { !Giving? && !Ending? && !Handing? && !Registering? }

    /** As Leaving, and the pool has already booked the thread as returned. */
    predicate Returned() { Ending? || Notifying? || Handing? || AwaitingService? }

    predicate Serves(giver: Sid) {
      (Allocating? || Registering?) && k == Serving(giver)
    }
  }

  datatype Hand = Hand(thread: Tid, job: Job)

  /** Where the jobs given to this scheduler are, apart from its queue. */
  datatype Ledger = Ledger(
    given: multiset<Job>,       // every job OnSchedule was called for
    announced: multiset<Job>,   // ... but which is not queued yet
    hands: seq<Hand>,           // being executed by a worker
    finished: multiset<Job>,    // executed, OnUnSchedule called
    removed: multiset<Job>,     // taken off the queue unexecuted, OnUnSchedule called
    sleepers: nat,              // callers blocked in WaitForEmptyQueue
    everStopped: bool)

  datatype Sched = Sched(
    threadCount: nat, aggressive: bool,
    queue: Deque<Job>, threads: Threads, emptyEvent: bool,
    pc: Pc, ledger: Ledger)
  {
    /** Threads this scheduler answers for: listed, or just taken off the list to be returned. */
    function Held(): seq<Tid> {
      threads.running + threads.suspended + if pc.Unstarving? then [pc.t] else []
    }

    /** Threads the pool has booked as lent to this scheduler. */
    function Lent(): int {
      threads.fromShared - if pc.Returned() then 1 else 0
    }

    predicate Busy(t: Tid) {
      exists i :: 0 <= i < |ledger.hands| && ledger.hands[i].thread == t
    }
  }

  function NewSched(threadCount: nat, shared: nat, aggressive: bool, fifo: bool): Sched {
    Sched(threadCount, aggressive, Deque([], fifo),
          Threads([], [], 0, 0, threadCount, 0, shared, threadCount + shared, false, 0),
          false, Free,
          Ledger(multiset{}, multiset{}, [], multiset{}, multiset{}, 0, false))
  }

  function JobsOf(hands: seq<Hand>): seq<Job> {
    seq(|hands|, i requires 0 <= i < |hands| => hands[i].job)
  }

  // ---------------------------------------------------------------- steps of one scheduler

  /** Schedule, before the mutex is taken: OnSchedule. */
  function Announce(s: Sched, job: Job): Sched {
    s.(ledger := s.ledger.(given := s.ledger.given + multiset{job},
                           announced := s.ledger.announced + multiset{job}))
  }

  predicate ScheduleWants(aggressive: bool, size: nat, th: Threads) {
    aggressive || (size > 2 * th.runningCount && th.unusedCount > 0)
  }

  predicate ResumeWants(aggressive: bool, size: nat, th: Threads) {
    (size > th.runningCount && aggressive) || (size > 4 * th.runningCount && th.unusedCount > 0)
  }

  /** The loop condition of ThreadAvailable, which asks for a stopped scheduler. */
  predicate AvailableWants(size: nat, th: Threads) {
    && th.stopCount != 0
    && size > 2 * th.runningCount
    && th.suspendedCount == 0
    && th.yetToCreate == 0
    && th.fromShared < th.maxFromShared
  }

  function Enqueue(s: Sched, job: Job): Sched {
    var q := s.queue.Do(Push(job));
    s.(queue := q,
       emptyEvent := s.emptyEvent && s.queue.jobs != [],
       pc := if s.threads.stopCount == 0 && ScheduleWants(s.aggressive, |q.jobs|, s.threads)
             then Allocating(AfterSchedule) else Free,
       ledger := s.ledger.(announced := s.ledger.announced - multiset{job}))
  }

  /** What follows an attempt to get one more thread. */
  function Continue(s: Sched, k: Cont, ok: bool): Sched {
    s.(pc := match k
             case AfterSchedule => Free
             case InResume =>
               if ok && ResumeWants(s.aggressive, |s.queue.jobs|, s.threads) then Allocating(k) else Free
             case Serving(_) =>
               if ok && AvailableWants(|s.queue.jobs|, s.threads) then Allocating(k) else Free)
  }

  /** AssignJob finding work: the job leaves the queue for the hands of thread `t`. */
  function TakeJob(s: Sched, t: Tid): Sched
    requires s.queue.jobs != []
  {
    s.(queue := s.queue.Do(Pop),
       ledger := s.ledger.(hands := s.ledger.hands + [Hand(t, s.queue.Out(Pop)[0])]))
  }

  /** The counters after a thread went idle; signals the last one. */
  function Retire(s: Sched, th: Threads): Sched {
    var th' := th.Retired();
    s.(threads := th', emptyEvent := s.emptyEvent || th'.runningCount == 0, pc := Free)
  }

  /** AssignJob without work, up to the first access to the shared pool if there is one. */
  function GoIdle(s: Sched, i: nat): Sched
    requires i < |s.threads.running|
  {
    var t := s.threads.running[i];
    var th := s.threads.(running := SwapRemove(s.threads.running, i));
    if th.fromShared > 0 then s.(threads := th, pc := Unstarving(t))
    else if s.aggressive then Retire(s, th.(yetToCreate := th.yetToCreate + 1))
    else Retire(s, th.(suspended := th.suspended + [t], suspendedCount := th.suspendedCount + 1))
  }

  /** The end of Release and of the section that called it. */
  function GiveDone(s: Sched): Sched {
    Retire(s, s.threads.(fromShared := s.threads.fromShared - 1))
  }

  /** The worker finished executing and called OnUnSchedule; no mutex is involved. */
  function FinishJob(s: Sched, i: nat): Sched
    requires i < |s.ledger.hands|
  {
    s.(ledger := s.ledger.(hands := s.ledger.hands[..i] + s.ledger.hands[i + 1..],
                           finished := s.ledger.finished + multiset{s.ledger.hands[i].job}))
  }

  function StopCall(s: Sched): Sched {
    s.(threads := s.threads.(stopCount := s.threads.stopCount + 1),
       ledger := s.ledger.(everStopped := true))
  }

  function ResumeCall(s: Sched): Sched {
    var s' := s.(threads := s.threads.(stopCount := s.threads.stopCount - 1));
    if s'.threads.stopCount == 0 then Continue(s', InResume, true) else s'
  }

  /** Takes `n` jobs off the end selected by `fifo`. */
  function TakeOff(q: Deque<Job>, n: nat): (r: (Deque<Job>, seq<Job>))
    requires n <= |q.jobs|
    ensures |r.0.jobs| == |q.jobs| - n && |r.1| == n
    decreases n
  {
    if n == 0 then (q, [])
    else var (q', out) := TakeOff(q.Do(Pop), n - 1); (q', q.Out(Pop) + out)
  }

  function RemoveJobs(s: Sched, watermark: nat, oldest: bool): Sched {
    if |s.queue.jobs| <= watermark then s
    else
      var fifo := s.queue.fifo;
      var (q, out) := TakeOff(s.queue.Do(SetFifo(oldest == fifo)), |s.queue.jobs| - watermark);
      s.(queue := q.Do(SetFifo(fifo)),
         ledger := s.ledger.(removed := s.ledger.removed + multiset(out)))
  }

  /** One turn of the WaitForEmptyQueue loop: a stopped scheduler is drained first. */
  function Drained(s: Sched): Sched {
    if s.threads.stopCount != 0 then
      var (q, out) := TakeOff(s.queue, |s.queue.jobs|);
      s.(queue := q, ledger := s.ledger.(removed := s.ledger.removed + multiset(out)))
    else s
  }

  predicate WaitReturns(s: Sched) {
    Drained(s).threads.runningCount == 0 && Drained(s).queue.jobs == []
  }

  function WaitTurn(s: Sched): Sched {
    if WaitReturns(s) then Drained(s)
    else FallAsleep(Drained(s))
  }

  function FallAsleep(s: Sched): Sched {
    s.(emptyEvent := false, ledger := s.ledger.(sleepers := s.ledger.sleepers + 1))
  }

  function WakeUp(s: Sched): Sched
    requires s.ledger.sleepers > 0
  {
    s.(ledger := s.ledger.(sleepers := s.ledger.sleepers - 1))
  }

  // ---------------------------------------------------------------- invariants of one scheduler

  /** The documented meaning of the counters, adjusted while a borrowed thread is leaving. */
  ghost predicate Accounted(s: Sched) {
    var th := s.threads;
    && |th.running| == th.runningCount - (if s.pc.Leaving() then 1 else 0)
    && |th.suspended| == th.suspendedCount
    && 0 <= th.yetToCreate && 0 <= th.fromShared <= th.maxFromShared && 0 <= th.stopCount
    && th.unusedCount == th.suspendedCount + th.yetToCreate + th.maxFromShared - th.fromShared
    && th.runningCount + th.suspendedCount + th.yetToCreate == s.threadCount + th.fromShared
    && (th.fromShared > 0 ==> th.NoneIdle())
    && (s.pc.Leaving() ==> th.fromShared > 0)
    && (s.pc.Registering? ==> th.fromShared < th.maxFromShared && th.NoneIdle())
    && (s.pc.Returned() || s.pc.Giving? ==> !th.starved)
  }

  /** At most `factor` queued jobs per running thread, unless every private thread runs. */
  ghost predicate Bounded(s: Sched, factor: nat) {
    match s.pc
    case Allocating(AfterSchedule) =>
      |s.queue.jobs| <= factor * s.threads.runningCount + 1 || s.threads.NoneIdle()
    case Allocating(InResume) => true
    case _ =>
      |s.queue.jobs| <= factor * s.threads.runningCount || s.threads.NoneIdle()
  }

  ghost predicate Backlog(s: Sched) {
    && (s.threads.stopCount == 0 ==> Bounded(s, 4))
    && (s.threads.stopCount == 0 && s.pc.Leaving() ==> s.queue.jobs == [])
    && (s.pc.Allocating? || s.pc.Registering? ==> (s.pc.k.Serving? <==> s.threads.stopCount != 0))
    && (!s.ledger.everStopped ==>
          s.threads.stopCount == 0 && Bounded(s, 2) && s.pc != Allocating(InResume))
  }

  /** Every job is in exactly one place. */
  ghost predicate Tallied(s: Sched) {
    var l := s.ledger;
    l.given == l.announced + multiset(s.queue.jobs) + multiset(JobsOf(l.hands)) + l.finished + l.removed
  }

  /** A running worker has at most one job in its hands, and nobody else has any. */
  ghost predicate HandsOk(s: Sched) {
    var hands := s.ledger.hands;
    && (forall i :: 0 <= i < |hands| ==> hands[i].thread in s.threads.running)
    && (forall i, j :: 0 <= i < j < |hands| ==> hands[i].thread != hands[j].thread)
  }

  /** Unless it was ever stopped, a scheduler with a private thread leaves nobody asleep. */
  ghost predicate NobodyForgotten(s: Sched) {
    !s.ledger.everStopped && s.threadCount > 0 && s.ledger.sleepers > 0 && !s.emptyEvent ==>
      s.threads.runningCount > 0 || s.pc == Allocating(AfterSchedule)
  }

  ghost predicate SchedInv(s: Sched) {
    && Accounted(s)
    && NoDup(s.Held())
    && Backlog(s)
    && Tallied(s)
    && HandsOk(s)
    && NobodyForgotten(s)
  }
}
