/** The life of one job object. Any number of threads may call Execute, OnSchedule,
    OnUnSchedule and Terminate on it, at any time; every step is a single access to one of
    its flags or events, and the steps of all callers interleave in any order. */
module JobLife {
  import opened Options
  import opened Runs

  /** How far a call of Execute has come; all but the first and the last belong to the caller
      that found `waiting` set. */
  datatype Executing =
    | Entering           // about to exchange `waiting`
    | CheckTerminated    // about to read `terminated`
    | Running            // about to run the job's body
    | SettingDone        // about to set `executionDone`
    | CheckScheduled     // about to read `scheduled`
    | SettingDeletable   // about to set `deletable`
    | Left(won: bool)
  {
    predicate Won() { !Entering? && (Left? ==> won) }
    predicate Finishing() { CheckScheduled? || SettingDeletable? }
    predicate BeforeDone() { CheckTerminated? || Running? || SettingDone? }
  }

  /** How far a call of OnUnSchedule has come. */
  datatype Unscheduling =
    | Exchanging   // about to exchange `scheduled`
    | Testing      // found it set; about to test `executionDone`
    | Signalling   // about to set `deletable`
    | Gone
  {
    predicate Pending() { Testing? || Signalling? }
  }

  datatype JobState = JobState(
    waiting: bool, terminated: bool, scheduled: bool, executionDone: bool, deletable: bool,
    executing: seq<Executing>, unscheduling: seq<Unscheduling>,
    bodies: nat,         // how often the body was run
    skipped: bool,       // the body was not run because of a Terminate
    disciplined: bool)   // every OnSchedule came in time
  {
    /** OnSchedule is called in time: the job is not done, and no OnUnSchedule that took it
        off a scheduler is still under way. */
    predicate InTime() {
      !executionDone && forall j: nat :: j < |unscheduling| ==> !unscheduling[j].Pending()
    }
  }

  function NewJob(): JobState {
    JobState(true, false, false, false, false, [], [], 0, false, true)
  }

  datatype Action =
    | CallExecute
    | StepExecute(i: nat)
    | OnSchedule
    | CallOnUnSchedule
    | StepOnUnSchedule(j: nat)
    | Terminate

  /** Where a call of Execute stands after its next access. */
  function Advanced(s: JobState, pc: Executing): Executing {
    match pc
    case Entering => if s.waiting then CheckTerminated else Left(false)
    case CheckTerminated => if s.terminated then SettingDone else Running
    case Running => SettingDone
    case SettingDone => CheckScheduled
    case CheckScheduled => if s.scheduled then Left(true) else SettingDeletable
    case SettingDeletable => Left(true)
    case Left(_) => pc
  }

  /** What that access does to the job. */
  function Effect(s: JobState, pc: Executing): JobState {
    match pc
    case Entering => s.(waiting := false)
    case CheckTerminated => s.(skipped := s.terminated)
    case Running => s.(bodies := s.bodies + 1)
    case SettingDone => s.(executionDone := true)
    case CheckScheduled => s
    case SettingDeletable => s.(deletable := true)
    case Left(_) => s
  }

  function UnAdvanced(s: JobState, pc: Unscheduling): Unscheduling {
    match pc
    case Exchanging => if s.scheduled then Testing else Gone
    case Testing => if s.executionDone then Signalling else Gone
    case Signalling => Gone
    case Gone => Gone
  }

  function UnEffect(s: JobState, pc: Unscheduling): JobState {
    match pc
    case Exchanging => s.(scheduled := false)
    case Testing => s
    case Signalling => s.(deletable := true)
    case Gone => s
  }

  function Next(s: JobState, a: Action): Option<JobState> {
    match a
    case CallExecute => Some(s.(executing := s.executing + [Entering]))
    case StepExecute(i) =>
      if i < |s.executing| && !s.executing[i].Left?
      then Some(Effect(s, s.executing[i]).(executing := s.executing[i := Advanced(s, s.executing[i])]))
      else None
    case OnSchedule => Some(s.(scheduled := true, disciplined := s.disciplined && s.InTime()))
    case CallOnUnSchedule => Some(s.(unscheduling := s.unscheduling + [Exchanging]))
    case StepOnUnSchedule(j) =>
      if j < |s.unscheduling| && !s.unscheduling[j].Gone?
      then Some(UnEffect(s, s.unscheduling[j]).(unscheduling := s.unscheduling[j := UnAdvanced(s, s.unscheduling[j])]))
      else None
    case Terminate => Some(s.(terminated := true))
  }

  // ---------------------------------------------------------------- invariant

  ghost predicate Winner(s: JobState, i: nat) {
    i < |s.executing| && s.executing[i].Won()
  }

  /** At most one call of Execute wins, and it is the one that cleared `waiting`. */
  ghost predicate OneWinner(s: JobState) {
    && (forall i: nat, k: nat :: Winner(s, i) && Winner(s, k) ==> i == k)
    && (s.waiting <==> forall i: nat :: !Winner(s, i))
  }

  /** What has happened by the time the winner has come as far as `pc`. */
  ghost predicate SoFar(s: JobState, pc: Executing) {
    && (s.executionDone <==> !pc.BeforeDone())
    && s.bodies == (if pc.CheckTerminated? || pc.Running? || s.skipped then 0 else 1)
    && (pc.CheckTerminated? || pc.Running? ==> !s.skipped)
  }

  ghost predicate Progress(s: JobState) {
    && (s.waiting ==> s.bodies == 0 && !s.skipped && !s.executionDone)
    && (forall i: nat :: Winner(s, i) ==> SoFar(s, s.executing[i]))
    && (s.deletable ==> s.executionDone)
    && (forall j: nat :: j < |s.unscheduling| && s.unscheduling[j].Signalling? ==> s.executionDone)
  }

  /** Whoever is going to set `deletable`. */
  ghost predicate SomebodyWillSignal(s: JobState) {
    || (exists i: nat :: i < |s.executing| && s.executing[i].Finishing())
    || (exists j: nat :: j < |s.unscheduling| && s.unscheduling[j].Pending())
  }

  /** A job that is done and not scheduled is deletable, or will be. */
  ghost predicate SignalNotLost(s: JobState) {
    s.executionDone && !s.scheduled ==> s.deletable || SomebodyWillSignal(s)
  }

  /** With OnSchedule called in time only, a scheduled job is not about to become deletable. */
  ghost predicate NotYetDeletable(s: JobState) {
    s.disciplined && s.scheduled ==>
      && !s.deletable
      && (forall i: nat :: i < |s.executing| ==> !s.executing[i].SettingDeletable?)
      && (forall j: nat :: j < |s.unscheduling| ==> !s.unscheduling[j].Pending())
  }

  ghost predicate Inv(s: JobState) {
    OneWinner(s) && Progress(s) && SignalNotLost(s) && NotYetDeletable(s)
  }

  /** A step of one Execute call leaves all other calls where they are. */
  lemma OthersStay(s: JobState, i: nat)
    requires i < |s.executing| && Next(s, StepExecute(i)).Some?
    ensures var s' := Next(s, StepExecute(i)).value;
            && |s'.executing| == |s.executing| && s'.unscheduling == s.unscheduling
            && s'.executing[i] == Advanced(s, s.executing[i])
            && s' == Effect(s, s.executing[i]).(executing := s'.executing)
            && (forall k: nat :: k < |s.executing| && k != i ==> s'.executing[k] == s.executing[k])
            && (forall k: nat :: k != i ==> Winner(s', k) == Winner(s, k))
            && (Winner(s', i) <==> Winner(s, i) || (s.executing[i].Entering? && s.waiting))
  {
    hide Effect;
    var s' := Next(s, StepExecute(i)).value;
    assert s'.unscheduling == s.unscheduling by { UnaffectedLists(s, s.executing[i]); }
  }

  lemma UnUnaffected(s: JobState, pc: Unscheduling)
    ensures var s' := UnEffect(s, pc);
            && s'.executing == s.executing && s'.waiting == s.waiting && s'.bodies == s.bodies
            && s'.skipped == s.skipped && s'.executionDone == s.executionDone && s'.terminated == s.terminated
            && (s.deletable ==> s'.deletable)
  {
  }

  lemma UnaffectedLists(s: JobState, pc: Executing)
    ensures Effect(s, pc).executing == s.executing && Effect(s, pc).unscheduling == s.unscheduling
  {
    match pc
    case Entering =>
    case CheckTerminated =>
    case Running =>
    case SettingDone =>
    case SettingDeletable =>
    case _ =>
  }

  /** Every other action leaves the winner where it is. */
  lemma WinnersStay(s: JobState, a: Action)
    requires !a.StepExecute? && Next(s, a).Some?
    ensures var s' := Next(s, a).value;
            && s.executing <= s'.executing && (forall k: nat :: Winner(s', k) == Winner(s, k))
            && s'.waiting == s.waiting && s'.bodies == s.bodies && s'.skipped == s.skipped
            && s'.executionDone == s.executionDone
  {
    hide Effect, Advanced, UnEffect, UnAdvanced;
    if a.StepOnUnSchedule? {
      UnUnaffected(s, s.unscheduling[a.j]);
    }
  }

  lemma SoFarAdvances(s: JobState, pc: Executing, executing: seq<Executing>)
    requires !pc.Left? && (pc.Won() ==> SoFar(s, pc))
    requires pc.Entering? && s.waiting ==> s.bodies == 0 && !s.skipped && !s.executionDone
    ensures var s', pc' := Effect(s, pc).(executing := executing), Advanced(s, pc);
            && (pc'.Won() ==> SoFar(s', pc'))
            && (pc.Entering? ==> s' == s.(waiting := false, executing := executing))
            && s'.waiting == (s.waiting && !pc.Entering?)
            && (!s'.waiting || !pc.Won() ==> (s'.deletable ==> s.deletable || s'.executionDone))
            && (s.executionDone ==> s'.executionDone)
  {
    match pc
    case Entering =>
    case CheckTerminated =>
    case Running =>
    case SettingDone =>
    case SettingDeletable =>
    case _ =>
  }

  lemma ExecuteKeeps(s: JobState, i: nat)
    requires OneWinner(s) && Progress(s) && Next(s, StepExecute(i)).Some?
    ensures OneWinner(Next(s, StepExecute(i)).value) && Progress(Next(s, StepExecute(i)).value)
  {
    OthersStay(s, i);
    var s' := Next(s, StepExecute(i)).value;
    hide Next;
    assert OneWinner(s') by {
      hide Progress, Executing.Won, SoFar, Winner;
      if s.executing[i].Entering? && s.waiting {
        assert Winner(s', i);
      } else if !s.waiting {
        var w: nat :| Winner(s, w);
        assert Winner(s', w);
      }
    }
    assert s.executing[i].Won() ==> Winner(s, i);
    SoFarAdvances(s, s.executing[i], s'.executing);
    hide Effect, Advanced;
    forall k: nat | Winner(s', k) ensures SoFar(s', s'.executing[k]) {
      if k != i {
        assert Winner(s, k);
        assert !Winner(s, i);
      }
    }
  }

  lemma OtherKeeps(s: JobState, a: Action)
    requires OneWinner(s) && Progress(s) && Next(s, a).Some? && !a.StepExecute?
    ensures OneWinner(Next(s, a).value) && Progress(Next(s, a).value)
  {
    WinnersStay(s, a);
    var s' := Next(s, a).value;
    assert OneWinner(s') by { hide Next, Winner, Progress; }
    assert forall k: nat :: Winner(s', k) ==> s'.executing[k] == s.executing[k];
    hide OneWinner;
    assert s'.deletable ==> s'.executionDone;
  }

  /** A step that makes the job done, or sees it scheduled, or signals. */
  lemma SignalCases(s: JobState, pc: Executing)
    requires !pc.Left?
    ensures var s' := Effect(s, pc);
            && s'.scheduled == s.scheduled
            && (s'.deletable <==> s.deletable || pc.SettingDeletable?)
            && (s'.executionDone <==> s.executionDone || pc.SettingDone?)
            && (pc.SettingDone? ==> Advanced(s, pc).Finishing())
            && (pc.CheckScheduled? ==> s.scheduled || Advanced(s, pc).Finishing())
  {
    match pc
    case Entering =>
    case CheckTerminated =>
    case Running =>
    case SettingDone =>
    case SettingDeletable =>
    case _ =>
  }

  lemma ExecuteSignals(s: JobState, i: nat)
    requires SignalNotLost(s) && Next(s, StepExecute(i)).Some?
    ensures SignalNotLost(Next(s, StepExecute(i)).value)
  {
    OthersStay(s, i);
    var s' := Next(s, StepExecute(i)).value;
    SignalCases(s, s.executing[i]);
    hide Next, Winner, Executing.Won, Effect, Advanced;
    assert s'.executing[i].Finishing() ==> SomebodyWillSignal(s');
    if k: nat :| k < |s.executing| && k != i && s.executing[k].Finishing() {
      assert s'.executing[k].Finishing();
    } else if j: nat :| j < |s.unscheduling| && s.unscheduling[j].Pending() {
      assert s'.unscheduling[j].Pending();
    }
  }

  lemma UnSignalCases(s: JobState, pc: Unscheduling)
    requires !pc.Gone?
    ensures var s' := UnEffect(s, pc);
            && s'.executing == s.executing && s'.executionDone == s.executionDone
            && (s'.deletable <==> s.deletable || pc.Signalling?)
            && (s'.scheduled <==> s.scheduled && !pc.Exchanging?)
            && (pc.Exchanging? && s.scheduled ==> UnAdvanced(s, pc).Pending())
            && (pc.Testing? && s.executionDone ==> UnAdvanced(s, pc).Pending())
  {
    match pc
    case Exchanging =>
    case Testing =>
    case Signalling =>
  }

  lemma UnScheduleSignals(s: JobState, j: nat)
    requires SignalNotLost(s) && Next(s, StepOnUnSchedule(j)).Some?
    ensures SignalNotLost(Next(s, StepOnUnSchedule(j)).value)
  {
    var s' := Next(s, StepOnUnSchedule(j)).value;
    UnSignalCases(s, s.unscheduling[j]);
    hide UnEffect, UnAdvanced;
    assert s'.unscheduling[j].Pending() ==> SomebodyWillSignal(s');
    if k: nat :| k < |s.unscheduling| && k != j && s.unscheduling[k].Pending() {
      assert s'.unscheduling[k].Pending();
    } else if i: nat :| i < |s.executing| && s.executing[i].Finishing() {
      assert s'.executing[i].Finishing();
    }
  }

  lemma OtherSignals(s: JobState, a: Action)
    requires SignalNotLost(s) && Next(s, a).Some? && !a.StepExecute? && !a.StepOnUnSchedule?
    ensures SignalNotLost(Next(s, a).value)
  {
    var s' := Next(s, a).value;
    if i: nat :| i < |s.executing| && s.executing[i].Finishing() {
      assert s'.executing[i].Finishing();
    } else if j: nat :| j < |s.unscheduling| && s.unscheduling[j].Pending() {
      assert s'.unscheduling[j].Pending();
    }
  }

  lemma NotYetDeletableKept(s: JobState, a: Action)
    requires Progress(s) && NotYetDeletable(s) && Next(s, a).Some?
    ensures NotYetDeletable(Next(s, a).value)
  {
    if a.OnSchedule? && !s.executionDone {
      forall i: nat | i < |s.executing| ensures !s.executing[i].SettingDeletable? {
        assert s.executing[i].Won() ==> Winner(s, i);
      }
    }
    hide Progress, SomebodyWillSignal;
    if a.StepExecute? {
      hide UnEffect, UnAdvanced;
    } else {
      hide Effect, Advanced;
    }
  }

  lemma InvKept(s: JobState, a: Action)
    requires Inv(s) && Next(s, a).Some?
    ensures Inv(Next(s, a).value)
  {
    hide Next, OneWinner, Progress, SignalNotLost, NotYetDeletable;
    if a.StepExecute? {
      ExecuteKeeps(s, a.i);
      ExecuteSignals(s, a.i);
    } else {
      OtherKeeps(s, a);
      if a.StepOnUnSchedule? {
        UnScheduleSignals(s, a.j);
      } else {
        OtherSignals(s, a);
      }
    }
    NotYetDeletableKept(s, a);
  }

  lemma {:induction false} RunKeepsInv(s: JobState, run: seq<Action>)
    requires Inv(s) && Exec(Next, s, run).Some?
    ensures Inv(Exec(Next, s, run).value)
    decreases |run|
  {
    hide Inv, Next;
    if |run| > 0 {
      InvKept(s, run[0]);
      RunKeepsInv(Next(s, run[0]).value, run[1..]);
    }
  }

  ghost predicate Reached(s: JobState, run: seq<Action>) {
    Exec(Next, NewJob(), run) == Some(s)
  }

  lemma ReachedInv(s: JobState, run: seq<Action>)
    requires Reached(s, run)
    ensures Inv(s)
  {
    RunKeepsInv(NewJob(), run);
  }

  // ---------------------------------------------------------------- guarantees for every run

  predicate ExecuteFinished(s: JobState) {
    exists i: nat :: i < |s.executing| && s.executing[i] == Left(true)
  }

  /** No OnUnSchedule call is under way. */
  predicate Unscheduled(s: JobState) {
    forall j: nat :: j < |s.unscheduling| ==> s.unscheduling[j].Gone?
  }

  /** The body runs at most once, and not at all if a Terminate was seen first; when the job
      is done, one of the two has happened. */
  lemma BodyAtMostOnce(s: JobState, run: seq<Action>)
    requires Reached(s, run)
    ensures s.bodies <= 1
    ensures s.skipped ==> s.bodies == 0
    ensures s.executionDone ==> s.bodies == if s.skipped then 0 else 1
    ensures ExecuteFinished(s) ==> s.executionDone
  {
    ReachedInv(s, run);
    if !s.waiting {
      var i: nat :| Winner(s, i);
      assert SoFar(s, s.executing[i]);
    }
    if i: nat :| i < |s.executing| && s.executing[i] == Left(true) {
      assert Winner(s, i);
    }
  }

  ghost predicate NeverToRun(s: JobState) {
    s.terminated && s.bodies == 0 && forall i: nat :: i < |s.executing| ==> !s.executing[i].Running?
  }

  lemma TerminatedStays(s: JobState, a: Action)
    requires NeverToRun(s) && Next(s, a).Some?
    ensures NeverToRun(Next(s, a).value)
  {
    hide Effect, UnEffect, UnAdvanced;
    if a.StepExecute? {
      EffectForward(s, s.executing[a.i]);
    } else if a.StepOnUnSchedule? {
      UnUnaffected(s, s.unscheduling[a.j]);
    }
  }

  /** A job that is terminated before any caller looked never runs its body afterwards. */
  lemma {:induction false} TerminatedNeverRuns(s: JobState, run: seq<Action>)
    requires NeverToRun(s)
    requires Exec(Next, s, run).Some?
    ensures Exec(Next, s, run).value.bodies == 0
    decreases |run|
  {
    hide Next;
    if |run| > 0 {
      TerminatedStays(s, run[0]);
      TerminatedNeverRuns(Next(s, run[0]).value, run[1..]);
    }
  }

  /** After a Terminate that comes before any caller looked, the body is never run. */
  lemma TerminateIsObeyed(s: JobState, run: seq<Action>)
    requires s.bodies == 0 && forall i: nat :: i < |s.executing| ==> !s.executing[i].Running?
    requires Exec(Next, s, [Terminate] + run).Some?
    ensures Exec(Next, s, [Terminate] + run).value.bodies == 0
  {
    assert ([Terminate] + run)[1..] == run;
    TerminatedNeverRuns(Next(s, Terminate).value, run);
  }

  /** The signal is never lost: once the executing call is through, the job is not scheduled
      any more and no OnUnSchedule is under way, the job is deletable. */
  lemma DeletableInTheEnd(s: JobState, run: seq<Action>)
    requires Reached(s, run)
    requires ExecuteFinished(s) && !s.scheduled && Unscheduled(s)
    ensures s.deletable
  {
    ReachedInv(s, run);
    var i: nat :| i < |s.executing| && s.executing[i] == Left(true);
    assert Winner(s, i);
    forall k: nat | k < |s.executing| ensures !s.executing[k].Finishing() {
      assert s.executing[k].Won() ==> Winner(s, k);
    }
  }

  /** Every OnSchedule in the run comes before the job is done and while no OnUnSchedule that took
      it off a scheduler is under way. */
  ghost predicate AlwaysInTime(s: JobState, run: seq<Action>)
    requires Exec(Next, s, run).Some?
    decreases |run|
  {
    |run| > 0 ==>
      && (run[0].OnSchedule? ==>
            !s.executionDone
            && forall j: nat :: j < |s.unscheduling| ==> s.unscheduling[j].Exchanging? || s.unscheduling[j].Gone?)
      && AlwaysInTime(Next(s, run[0]).value, run[1..])
  }

  lemma InTimeByStep(s: JobState, a: Action)
    requires Next(s, a).Some?
    ensures Next(s, a).value.disciplined <==>
              s.disciplined && (a.OnSchedule? ==>
                !s.executionDone
                && forall j: nat :: j < |s.unscheduling| ==> s.unscheduling[j].Exchanging? || s.unscheduling[j].Gone?)
  {
    hide Effect, UnEffect, Advanced, UnAdvanced;
    if a.StepExecute? {
      EffectKeepsDiscipline(s, s.executing[a.i]);
    } else if a.StepOnUnSchedule? {
      UnEffectKeepsDiscipline(s, s.unscheduling[a.j]);
    }
  }

  lemma EffectKeepsDiscipline(s: JobState, pc: Executing)
    ensures Effect(s, pc).disciplined == s.disciplined
  {
  }

  lemma UnEffectKeepsDiscipline(s: JobState, pc: Unscheduling)
    ensures UnEffect(s, pc).disciplined == s.disciplined
  {
  }

  lemma {:induction false} DisciplineIsExact(s: JobState, run: seq<Action>)
    requires Exec(Next, s, run).Some?
    ensures Exec(Next, s, run).value.disciplined <==> s.disciplined && AlwaysInTime(s, run)
    decreases |run|
  {
    if |run| > 0 {
      InTimeByStep(s, run[0]);
      hide Next;
      DisciplineIsExact(Next(s, run[0]).value, run[1..]);
    }
  }

  /** A deletable job is done, and no scheduler holds it provided it was always scheduled in time. */
  lemma DeletableIsSafe(s: JobState, run: seq<Action>)
    requires Reached(s, run) && s.deletable
    ensures s.executionDone
    ensures AlwaysInTime(NewJob(), run) ==> !s.scheduled
  {
    ReachedInv(s, run);
    DisciplineIsExact(NewJob(), run);
  }

  /** Without it a deletable job can be scheduled: Execute read `scheduled` just before. */
  lemma ScheduledTooLate() returns (run: seq<Action>, s: JobState)
    ensures Reached(s, run) && s.deletable && s.scheduled && |s.unscheduling| == 0
  {
    hide Exec;
    Start(Next, NewJob());
    run, s := Step(Next, NewJob(), [], NewJob(), CallExecute);
    run, s := Step(Next, NewJob(), run, s, StepExecute(0));
    run, s := Step(Next, NewJob(), run, s, StepExecute(0));
    run, s := Step(Next, NewJob(), run, s, StepExecute(0));
    run, s := Step(Next, NewJob(), run, s, StepExecute(0));
    run, s := Step(Next, NewJob(), run, s, StepExecute(0));
    run, s := Step(Next, NewJob(), run, s, OnSchedule);
    run, s := Step(Next, NewJob(), run, s, StepExecute(0));
  }

  // ---------------------------------------------------------------- what observers see

  datatype Status = Waiting | InExecution | Done {
    function Rank(): nat { match this case Waiting => 0 case InExecution => 1 case Done => 2 }
  }

  /** GetStatus: reads `waiting` in one state and, if needed, `executionDone` in a later one. */
  function GetStatus(first: JobState, second: JobState): Status {
    if first.waiting then Waiting else if second.executionDone then Done else InExecution
  }

  /** What is seen at one moment is how far the job has come: nobody has begun to execute it, or
      somebody has and is not done, or somebody has done with it. */
  lemma StatusIsProgress(s: JobState, run: seq<Action>)
    requires Reached(s, run)
    ensures GetStatus(s, s) == Waiting <==>
              forall i: nat :: i < |s.executing| ==> s.executing[i].Entering? || s.executing[i] == Left(false)
    ensures GetStatus(s, s) == InExecution <==>
              exists i: nat :: i < |s.executing|
                && (s.executing[i].CheckTerminated? || s.executing[i].Running? || s.executing[i].SettingDone?)
    ensures GetStatus(s, s) == Done <==>
              exists i: nat :: i < |s.executing|
                && (s.executing[i].CheckScheduled? || s.executing[i].SettingDeletable? || s.executing[i] == Left(true))
  {
    ReachedInv(s, run);
    if !s.waiting {
      var i: nat :| Winner(s, i);
      assert SoFar(s, s.executing[i]);
    }
    forall i: nat | i < |s.executing| ensures Winner(s, i) <==> s.executing[i].Won() {
    }
    assert forall i: nat :: Winner(s, i) ==> SoFar(s, s.executing[i]);
  }

  lemma StepForward(s: JobState, a: Action)
    requires Next(s, a).Some?
    ensures var s' := Next(s, a).value;
            && (s'.waiting ==> s.waiting) && (s.executionDone ==> s'.executionDone)
            && (s.deletable ==> s'.deletable) && (s.terminated ==> s'.terminated)
  {
    hide Effect, Advanced, UnEffect, UnAdvanced;
    if a.StepExecute? {
      EffectForward(s, s.executing[a.i]);
    } else if a.StepOnUnSchedule? {
      UnUnaffected(s, s.unscheduling[a.j]);
    }
  }

  lemma EffectForward(s: JobState, pc: Executing)
    ensures var s' := Effect(s, pc);
            && (s'.waiting ==> s.waiting) && (s.executionDone ==> s'.executionDone)
            && (s.deletable ==> s'.deletable) && (s.terminated ==> s'.terminated)
            && (!pc.Running? ==> s'.bodies == s.bodies)
  {
  }

  /** Flags that signal progress are never taken back. */
  lemma {:induction false} OnlyForward(s: JobState, run: seq<Action>)
    requires Exec(Next, s, run).Some?
    ensures var s' := Exec(Next, s, run).value;
            && (s'.waiting ==> s.waiting) && (s.executionDone ==> s'.executionDone)
            && (s.deletable ==> s'.deletable) && (s.terminated ==> s'.terminated)
    decreases |run|
  {
    hide Next;
    if |run| > 0 {
      StepForward(s, run[0]);
      OnlyForward(Next(s, run[0]).value, run[1..]);
    }
  }

  /** Two observers, one after the other: the second never sees an earlier stage, although
      each of them reads two flags with anything happening in between. */
  lemma StatusMonotone(run: seq<Action>, s: JobState, a: seq<Action>, b: seq<Action>, c: seq<Action>)
    requires Reached(s, run) && Exec(Next, s, a).Some? && Exec(Next, Exec(Next, s, a).value, b).Some?
    requires Exec(Next, Exec(Next, Exec(Next, s, a).value, b).value, c).Some?
    ensures var s1 := Exec(Next, s, a).value;
            var s2 := Exec(Next, s1, b).value;
            var s3 := Exec(Next, s2, c).value;
            GetStatus(s, s1).Rank() <= GetStatus(s2, s3).Rank()
  {
    var s1 := Exec(Next, s, a).value;
    var s2 := Exec(Next, s1, b).value;
    OnlyForward(s, a);
    OnlyForward(s1, b);
    OnlyForward(s2, c);
  }
}
