/** Any number of schedulers sharing one pool. A run interleaves, in any order, steps that
    are each one access to the pool or one stretch of a mutex section without such an access. */
module SchedulerWorld {
  import opened Options
  import Runs   // also named in the modules that open this one
  import opened SchedulerModel
  import opened SharedPool

  /** `owner` holds the owner field of every existing thread record. */
  datatype World = World(scheds: seq<Sched>, pool: Pool, owner: map<Tid, Option<Sid>>)
  {
    /** A thread that waits for its own end holds the pool's mutex for good. */
    predicate PoolFree() { forall s :: 0 <= s < |scheds| ==> !scheds[s].pc.Ending? }
  }

  datatype Action =
    | DoAnnounce(s: Sid, job: Job)
    | DoEnqueue(s: Sid, job: Job)
    | DoAllocate(s: Sid, anew: Tid)
    | DoRegister(s: Sid)
    | DoAssign(s: Sid, i: nat)
    | DoUnstarve(s: Sid)
    | DoGive(s: Sid)
    | DoSelect(s: Sid)
    | DoServe(s: Sid)
    | DoReturn(s: Sid)
    | DoFinish(s: Sid, i: nat)
    | DoStop(s: Sid)
    | DoResume(s: Sid)
    | DoRemove(s: Sid, watermark: nat, oldest: bool)
    | DoWait(s: Sid)
    | DoWake(s: Sid)
    | DoTimeout(s: Sid)
    | DoSetCount(s: Sid, count: nat)

  function Put(w: World, s: Sid, sched: Sched): World
    requires s < |w.scheds|
  {
    w.(scheds := w.scheds[s := sched])
  }

  function Allocate(w: World, s: Sid, anew: Tid): Option<World>
    requires s < |w.scheds| && w.scheds[s].pc.Allocating?
  {
    var x := w.scheds[s];
    var th := x.threads;
    if th.suspendedCount > 0 then
      if |th.suspended| == 0 then None
      else Some(Put(w, s, Continue(x.(threads := th.WakeSuspended()), x.pc.k, true)))
    else if th.yetToCreate > 0 then
      if anew in w.owner then None
      else Some(Put(w, s, Continue(x.(threads := th.StartPrivate(anew)), x.pc.k, true))
                  .(owner := w.owner[anew := Option.Some(s)]))
    else if th.fromShared < th.maxFromShared && !th.starved then
      if !w.PoolFree() then None
      else if w.pool.Exhausted() then
        Some(Put(w, s, x.(threads := th.(starved := true), pc := Registering(x.pc.k))))
      else if |w.pool.idle| == 0 && anew in w.owner then None
      else
        var t := w.pool.Offer(anew);
        Some(Put(w, s, Continue(x.(threads := th.TakeShared(t)), x.pc.k, true))
               .(pool := w.pool.Lend(), owner := w.owner[t := Option.Some(s)]))
    else Some(Put(w, s, Continue(x, x.pc.k, false)))
  }

  function Assign(w: World, s: Sid, i: nat): Option<World>
    requires s < |w.scheds|
  {
    var x := w.scheds[s];
    if !x.pc.Free? || i >= |x.threads.running| || x.Busy(x.threads.running[i]) then None
    else
      var t := x.threads.running[i];
      if x.queue.jobs == [] || x.threads.stopCount != 0 then
        var w' := Put(w, s, GoIdle(x, i));
        Some(if x.threads.fromShared <= 0 && x.aggressive then w'.(owner := w.owner - {t}) else w')
      else Some(Put(w, s, TakeJob(x, t)))
  }

  function Unstarve(w: World, s: Sid): World
    requires s < |w.scheds| && w.scheds[s].pc.Unstarving?
  {
    var x := w.scheds[s];
    if x.threads.starved && s !in w.pool.starving then w   // spins
    else
      Put(w, s, x.(threads := x.threads.(starved := false), pc := Giving(x.pc.t)))
        .(pool := if x.threads.starved then w.pool.RemoveStarving(s) else w.pool,
          owner := w.owner[x.pc.t := None])
  }

  function Give(w: World, s: Sid): World
    requires s < |w.scheds| && w.scheds[s].pc.Giving?
  {
    var x := w.scheds[s];
    var x' :=
      if !w.pool.Keeps() then x.(pc := Ending(x.pc.t))
      else if w.pool.starving == [] then GiveDone(x)
      else x.(pc := Notifying);
    Put(w, s, x').(pool := w.pool.TakeBack(x.pc.t))
  }

  function Select(w: World, s: Sid): World
    requires s < |w.scheds|
  {
    var x := w.scheds[s];
    if w.pool.HasStarving() then
      Put(w, s, x.(pc := Handing(w.pool.starving[0])))
        .(pool := w.pool.(starving := w.pool.starving[1..]))
    else Put(w, s, GiveDone(x))
  }

  /** `s` enters the mutex of the scheduler it notifies, once that is free. */
  function Serve(w: World, s: Sid): Option<World>
    requires s < |w.scheds| && w.scheds[s].pc.Handing?
  {
    var b := w.scheds[s].pc.to;
    if b >= |w.scheds| || !w.scheds[b].pc.Free? then None
    else
      var y := w.scheds[b];
      var w' := Put(w, s, w.scheds[s].(pc := AwaitingService(b)));
      Some(Put(w', b, Continue(y.(threads := y.threads.(starved := false)), Serving(s), true)))
  }

  function Next(w: World, a: Action): Option<World> {
    if a.s >= |w.scheds| then None else
    var s, x := a.s, w.scheds[a.s];
    match a
    case DoAnnounce(_, job) => Some(Put(w, s, Announce(x, job)))
    case DoEnqueue(_, job) => if x.pc.Free? && job in x.ledger.announced then Some(Put(w, s, Enqueue(x, job))) else None
    case DoAllocate(_, anew) => if x.pc.Allocating? then Allocate(w, s, anew) else None
    case DoRegister(_) =>
      if x.pc.Registering? && w.PoolFree()
      then Some(Put(w, s, Continue(x, x.pc.k, false)).(pool := w.pool.AddStarving(s))) else None
    case DoAssign(_, i) => Assign(w, s, i)
    case DoUnstarve(_) =>
      if x.pc.Unstarving? && (x.threads.starved ==> w.PoolFree()) then Some(Unstarve(w, s)) else None
    case DoGive(_) => if x.pc.Giving? && w.PoolFree() then Some(Give(w, s)) else None
    case DoSelect(_) => if x.pc.Notifying? && w.PoolFree() then Some(Select(w, s)) else None
    case DoServe(_) => if x.pc.Handing? then Serve(w, s) else None
    case DoReturn(_) =>
      if x.pc.AwaitingService? && !(x.pc.to < |w.scheds| && w.scheds[x.pc.to].pc.Serves(s))
      then Some(Put(w, s, x.(pc := Notifying))) else None
    case DoFinish(_, i) => if i < |x.ledger.hands| then Some(Put(w, s, FinishJob(x, i))) else None
    case DoStop(_) => if x.pc.Free? then Some(Put(w, s, StopCall(x))) else None
    case DoResume(_) => if x.pc.Free? && x.threads.stopCount > 0 then Some(Put(w, s, ResumeCall(x))) else None
    case DoRemove(_, watermark, oldest) => if x.pc.Free? then Some(Put(w, s, RemoveJobs(x, watermark, oldest))) else None
    case DoWait(_) => if x.pc.Free? then Some(Put(w, s, WaitTurn(x))) else None
    case DoWake(_) => if x.ledger.sleepers > 0 && x.emptyEvent then Some(Put(w, s, WakeUp(x))) else None
    case DoTimeout(_) => if x.ledger.sleepers > 0 then Some(Put(w, s, WakeUp(x))) else None
    case DoSetCount(_, count) =>
      if w.PoolFree()
      then Some(w.(pool := w.pool.SetCount(count),
                   owner := w.owner - (set t | t in w.pool.idle[w.pool.Surviving(count)..]))) else None
  }

  function Exec(w: World, run: seq<Action>): Option<World> { Runs.Exec(Next, w, run) }

  /** `run` leads from `w` to `w'`. */
  ghost predicate Leads(w: World, run: seq<Action>, w': World) {
    Exec(w, run) == Option.Some(w')
  }

  // ---------------------------------------------------------------- invariants

  function SumLent(scheds: seq<Sched>): int {
    if |scheds| == 0 then 0 else scheds[0].Lent() + SumLent(scheds[1..])
  }

  ghost predicate PoolInv(w: World) {
    w.pool.yetToCreate >= 0 && SumLent(w.scheds) == w.pool.allocCount
  }

  /** Where the thread records are: held by a scheduler, on their way back to the pool,
      or idle in it; and what their owner fields say. */
  datatype Places = Places(
    held: seq<set<Tid>>, transit: seq<Option<Tid>>, idle: seq<Tid>, owner: map<Tid, Option<Sid>>)
  {
    ghost predicate InTransit(t: Tid) {
      exists s: Sid :: s < |transit| && transit[s] == Option.Some(t)
    }

    /** Threads held by a scheduler are exactly those whose owner field names it. */
    ghost predicate Claimed() {
      && (forall s: Sid, t :: s < |held| && t in held[s] ==> t in owner && owner[t] == Option.Some(s))
      && (forall t :: t in owner && owner[t].Some? ==> owner[t].value < |held| && t in held[owner[t].value])
    }

    /** Threads without an owner are idle or in transit, but not both. */
    ghost predicate Pooled() {
      && (forall t :: t in idle ==> t in owner && owner[t] == Option.None)
      && (forall s: Sid :: s < |transit| && transit[s].Some? ==>
            transit[s].value in owner && owner[transit[s].value] == Option.None && transit[s].value !in idle)
      && (forall t :: t in owner && owner[t].None? ==> t in idle || InTransit(t))
    }

    ghost predicate Single() {
      && NoDup(idle)
      && (forall s: Sid, r: Sid :: s < r < |transit| && transit[s].Some? ==> transit[s] != transit[r])
    }

    /** Every thread record is in exactly one place, and its owner field says which. */
    ghost predicate Exact() {
      |held| == |transit| && Claimed() && Pooled() && Single()
    }
  }

  ghost function HeldBy(x: Sched): set<Tid> { set t | t in x.Held() }

  ghost function TransitOf(x: Sched): Option<Tid> {
    if x.pc.Giving? || x.pc.Ending? then Option.Some(x.pc.t) else Option.None
  }

  ghost function PlacesOf(w: World): Places {
    Places(seq(|w.scheds|, s requires 0 <= s < |w.scheds| => HeldBy(w.scheds[s])),
           seq(|w.scheds|, s requires 0 <= s < |w.scheds| => TransitOf(w.scheds[s])),
           w.pool.idle, w.owner)
  }

  /** Which schedulers count as starved, and who knows about it. */
  datatype Hunger = Hunger(
    starved: seq<bool>, registering: seq<bool>, handing: seq<Option<Sid>>, queued: seq<Sid>)
  {
    ghost predicate BeingNotified(b: Sid) {
      exists s: Sid :: s < |handing| && handing[s] == Option.Some(b)
    }

    ghost predicate QueueOk()
      requires |starved| == |registering| == |handing|
    {
      NoDup(queued) && forall b :: b in queued ==> b < |starved| && starved[b] && !registering[b]
    }

    ghost predicate HandingOk()
      requires |starved| == |registering| == |handing|
    {
      && (forall s: Sid :: s < |handing| && handing[s].Some? ==>
            var b := handing[s].value;
            b < |starved| && starved[b] && !registering[b] && b !in queued)
      && (forall s: Sid, r: Sid :: s < r < |handing| && handing[s].Some? ==> handing[s] != handing[r])
    }

    ghost predicate Known()
      requires |starved| == |registering| == |handing|
    {
      && (forall b: Sid :: b < |starved| && registering[b] ==> starved[b])
      && (forall b: Sid :: b < |starved| && starved[b] ==> b in queued || registering[b] || BeingNotified(b))
    }

    /** A scheduler is starved exactly while it is about to register, registered, or in the
        hands of one notifying scheduler. */
    ghost predicate Exact() {
      |starved| == |registering| == |handing| && QueueOk() && HandingOk() && Known()
    }
  }

  ghost function HandingOf(x: Sched): Option<Sid> {
    if x.pc.Handing? then Option.Some(x.pc.to) else Option.None
  }

  ghost function HungerOf(w: World): Hunger {
    Hunger(seq(|w.scheds|, s requires 0 <= s < |w.scheds| => w.scheds[s].threads.starved),
           seq(|w.scheds|, s requires 0 <= s < |w.scheds| => w.scheds[s].pc.Registering?),
           seq(|w.scheds|, s requires 0 <= s < |w.scheds| => HandingOf(w.scheds[s])),
           w.pool.starving)
  }

  ghost predicate AllSchedInv(w: World) {
    forall s: Sid :: s < |w.scheds| ==> SchedInv(w.scheds[s])
  }

  ghost predicate Inv(w: World) {
    AllSchedInv(w) && PoolInv(w) && PlacesOf(w).Exact() && HungerOf(w).Exact()
  }

  /** The invariants, with the documented bound of the pool. */
  ghost predicate Sound(w: World) { Inv(w) && w.pool.Balanced() }

  /** Newly constructed schedulers and a pool configured before anything was lent. */
  ghost predicate Init(w: World) {
    && (forall s: Sid :: s < |w.scheds| ==>
          var x := w.scheds[s];
          x.threads.maxFromShared >= 0 &&
          x == NewSched(x.threadCount, x.threads.maxFromShared, x.aggressive, x.queue.fifo))
    && w.pool.maxCount >= 0
    && w.pool == Pool([], 0, w.pool.maxCount, w.pool.maxCount, [])
    && w.owner == map[]
  }
}
