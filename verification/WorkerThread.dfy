/** A worker thread that suspends itself from inside its function and is resumed or
    terminated by others. Every step is one access to a flag or to the resume event. */
module WorkerThread {
  import opened Options
  import opened Runs

  datatype Worker =
    | CheckSuspended    // about to read `suspended`
    | Waiting           // waiting for the resume event
    | CheckTerminated   // about to read `terminated` at the head of the loop
    | InFunc            // running the thread's function
    | Resetting         // ... in Suspend, about to reset the event
    | Marking           // ... in Suspend, about to set `suspended`
    | Exited
  {
    predicate Suspending() { Resetting? || Marking? }

    /** Own steps left until the end of a terminated thread that has left its function. */
    function StepsLeft(): nat {
      match this case CheckSuspended => 3 case Waiting => 2 case CheckTerminated => 1 case _ => 0
    }
  }

  /** How far a call of Resume has come. */
  datatype Resuming = NoResume | Unmarking | Signalling

  datatype Thread = Thread(
    suspended: bool, terminated: bool, resume: bool, worker: Worker, resuming: Resuming,
    released: bool)   // the latest Resume ended after the latest Suspend began

  function NewThread(startSuspended: bool): Thread {
    Thread(startSuspended, false, false, CheckSuspended, NoResume, false)
  }

  datatype Action = StepWorker | FuncReturns | FuncEnds | BeginSuspend | BeginResume | BeginTerminate | StepResume

  /** With `exclusive`, Suspend and Resume never overlap: both are called under one mutex. */
  function Next(t: Thread, a: Action, exclusive: bool): Option<Thread> {
    match a
    case StepWorker =>
      (match t.worker
       case CheckSuspended => Some(t.(worker := if t.suspended then Waiting else CheckTerminated))
       case Waiting => if t.resume then Some(t.(worker := CheckTerminated)) else None
       case CheckTerminated => Some(t.(worker := if t.terminated then Exited else InFunc))
       case Resetting => Some(t.(resume := false, worker := Marking))
       case Marking => Some(t.(suspended := true, worker := InFunc))
       case _ => None)
    case FuncReturns => if t.worker.InFunc? then Some(t.(worker := CheckSuspended)) else None
    case FuncEnds => if t.worker.InFunc? then Some(t.(worker := Exited, terminated := true)) else None
    case BeginSuspend =>
      if t.worker.InFunc? && (exclusive ==> t.resuming.NoResume?)
      then Some(t.(worker := Resetting, released := false)) else None
    case BeginResume =>
      if t.resuming.NoResume? && (exclusive ==> !t.worker.Suspending())
      then Some(t.(resuming := Unmarking)) else None
    case BeginTerminate =>
      if t.resuming.NoResume? && (exclusive ==> !t.worker.Suspending())
      then Some(t.(resuming := Unmarking, terminated := true)) else None
    case StepResume =>
      (match t.resuming
       case NoResume => None
       case Unmarking => Some(t.(suspended := false, resuming := Signalling))
       case Signalling => Some(t.(resume := true, resuming := NoResume, released := true)))
  }

  function Steps(exclusive: bool): (Thread, Action) -> Option<Thread> { (t, a) => Next(t, a, exclusive) }

  ghost predicate Inv(t: Thread) {
    && (t.resuming.NoResume? && !t.suspended && t.worker.Waiting? ==> t.resume)
    && (t.suspended || t.worker.Marking? ==> !t.resume)
    && (t.resuming.Signalling? ==> !t.suspended)
    && (!t.resuming.NoResume? ==> !t.worker.Suspending())
    && (t.released && t.resuming.NoResume? ==> !t.suspended)
    && (t.released ==> !t.worker.Suspending())
  }

  lemma {:induction false} RunKeeps(t: Thread, run: seq<Action>)
    requires Inv(t) && Exec(Steps(true), t, run).Some?
    ensures Inv(Exec(Steps(true), t, run).value)
    decreases |run|
  {
    if |run| > 0 {
      RunKeeps(Next(t, run[0], true).value, run[1..]);
    }
  }

  ghost predicate Reached(t: Thread, startSuspended: bool, run: seq<Action>, exclusive: bool) {
    Exec(Steps(exclusive), NewThread(startSuspended), run) == Some(t)
  }

  /** With no Resume half done, a waiting worker gets on if and only if it is not suspended;
      in particular a Resume that came after its Suspend is never lost. */
  lemma ResumedMeansRunning(t: Thread, startSuspended: bool, run: seq<Action>)
    requires Reached(t, startSuspended, run, true)
    requires t.resuming.NoResume? && t.worker.Waiting?
    ensures Next(t, StepWorker, true).Some? <==> !t.suspended
    ensures t.released ==> Next(t, StepWorker, true).Some?
  {
    RunKeeps(NewThread(startSuspended), run);
  }

  /** A few own steps of the worker that bring it to its end. */
  ghost predicate Ends(t: Thread, steps: seq<Action>) {
    && |steps| <= 3 && (forall k :: 0 <= k < |steps| ==> steps[k] == StepWorker)
    && Exec(Steps(true), t, steps).Some? && Exec(Steps(true), t, steps).value.worker.Exited?
  }

  /** Once Terminate has made its Resume, a worker outside of its function leaves its loop on
      its own steps, so that whoever waits for it to be done is released. */
  lemma TerminatedLeaves(t: Thread, startSuspended: bool, run: seq<Action>)
    requires Reached(t, startSuspended, run, true)
    requires t.terminated && t.resuming.NoResume? && !t.suspended && !t.worker.InFunc? && !t.worker.Suspending()
    ensures exists steps :: Ends(t, steps)
  {
    RunKeeps(NewThread(startSuspended), run);
    var steps := Leave(t);
    assert Ends(t, steps);
  }

  lemma Leave(t: Thread) returns (steps: seq<Action>)
    requires Inv(t) && t.terminated && t.resuming.NoResume? && !t.suspended
    requires !t.worker.InFunc? && !t.worker.Suspending()
    ensures |steps| <= t.worker.StepsLeft() && forall k :: 0 <= k < |steps| ==> steps[k] == StepWorker
    ensures Exec(Steps(true), t, steps).Some? && Exec(Steps(true), t, steps).value.worker.Exited?
    decreases t.worker.StepsLeft()
  {
    steps := [];
    if !t.worker.Exited? {
      var more := Leave(Next(t, StepWorker, true).value);
      steps := [StepWorker] + more;
      assert steps[1..] == more;
    }
  }

  lemma {:induction false} StaysTerminated(t: Thread, run: seq<Action>)
    requires t.terminated && Exec(Steps(true), t, run).Some?
    ensures Exec(Steps(true), t, run).value.terminated
    decreases |run|
  {
    if |run| > 0 {
      StaysTerminated(Next(t, run[0], true).value, run[1..]);
    }
  }

  /** So a Terminate is obeyed whatever happens after it, once its own Resume is through and the
      worker is outside of its function. */
  lemma TerminateIsObeyed(t: Thread, startSuspended: bool, run: seq<Action>, t': Thread, more: seq<Action>)
    requires Reached(t, startSuspended, run, true) && Exec(Steps(true), t, [BeginTerminate] + more) == Some(t')
    requires t'.resuming.NoResume? && !t'.suspended && !t'.worker.InFunc? && !t'.worker.Suspending()
    ensures exists steps :: Ends(t', steps)
  {
    assert ([BeginTerminate] + more)[1..] == more;
    StaysTerminated(Next(t, BeginTerminate, true).value, more);
    ExecJoin(Steps(true), NewThread(startSuspended), run, [BeginTerminate] + more);
    TerminatedLeaves(t', startSuspended, run + ([BeginTerminate] + more));
  }

  /** A worker ends only at the head of its loop after a Terminate, or when its function says so; and
      from then on it counts as terminated. */
  lemma EndsOnlySo(t: Thread, startSuspended: bool, run: seq<Action>, a: Action)
    requires Reached(t, startSuspended, run, true) && Next(t, a, true).Some?
    requires Next(t, a, true).value.worker.Exited? && !t.worker.Exited?
    ensures (a == StepWorker && t.worker.CheckTerminated? && t.terminated) || (a == FuncEnds && t.worker.InFunc?)
    ensures Next(t, a, true).value.terminated
  {
  }

  /** If the two may overlap, a Resume that begins after its Suspend has begun can be lost. */
  lemma LostWhenOverlapping() returns (run: seq<Action>, t: Thread)
    ensures Reached(t, false, run, false) && t.released && t.resuming.NoResume?
    ensures t.worker.Waiting? && Next(t, StepWorker, false).None?
  {
    hide Exec;
    run, t := [], NewThread(false);
    assert Reached(t, false, run, false) by { Start(Steps(false), t); }
    run, t := Step(Steps(false), NewThread(false), run, t, StepWorker);
    run, t := Step(Steps(false), NewThread(false), run, t, StepWorker);
    run, t := Step(Steps(false), NewThread(false), run, t, BeginSuspend);
    run, t := Step(Steps(false), NewThread(false), run, t, BeginResume);
    run, t := Step(Steps(false), NewThread(false), run, t, StepResume);
    run, t := Step(Steps(false), NewThread(false), run, t, StepResume);
    run, t := Step(Steps(false), NewThread(false), run, t, StepWorker);
    run, t := Step(Steps(false), NewThread(false), run, t, StepWorker);
    run, t := Step(Steps(false), NewThread(false), run, t, FuncReturns);
    run, t := Step(Steps(false), NewThread(false), run, t, StepWorker);
  }
}
