/** The one-shot event: a flag and an operating system event that is only allocated when
    somebody has to wait. Any number of threads may set it and wait for it; every step is one
    access to the flag, to the handle or to the operating system event. */
module OneShotEvent {
  import opened Options
  import opened Runs

  type Handle = nat

  /** How far a call of Set has come. */
  datatype Setting =
    | Exchanging       // about to exchange the flag
    | CheckingHandle   // cleared it first; about to look whether a handle exists
    | Signalling       // it does; about to signal it
    | SetDone
  {
    predicate UnderWay() { CheckingHandle? || Signalling? }
  }

  /** How far a call of WaitFor has come. */
  datatype Waiting =
    | Testing            // about to test the flag
    | LookingForHandle   // about to look whether a handle exists
    | Allocating         // there was none; about to store a new one
    | Retesting          // about to test the flag again
    | Opening            // about to read the handle to wait for
    | Blocked(h: Handle)
    | WaitDone
  {
    predicate Committed() { Opening? || Blocked? }
    predicate HasHandle() { Retesting? || Opening? || Blocked? }

    function StepsLeft(): nat {
      match this
      case Testing => 6 case LookingForHandle => 5 case Allocating => 4
      case Retesting => 3 case Opening => 2 case Blocked(_) => 1 case WaitDone => 0
    }
  }

  datatype Event = Event(
    state: bool, handle: Option<Handle>, signalled: set<Handle>, created: nat,
    setters: seq<Setting>, waiters: seq<Waiting>,
    crowded: bool,       // a wait began while another one was under way
    overwritten: bool)   // a handle was stored over an earlier one

  function NewEvent(): Event { Event(false, None, {}, 0, [], [], false, false) }

  datatype Action = CallSet | StepSet(i: nat) | CallWait | StepWait(j: nat)

  function StepOfSet(e: Event, i: nat): Option<Event>
    requires i < |e.setters|
  {
    match e.setters[i]
    case Exchanging => Some(e.(state := true, setters := e.setters[i := if e.state then SetDone else CheckingHandle]))
    case CheckingHandle => Some(e.(setters := e.setters[i := if e.handle.Some? then Signalling else SetDone]))
    case Signalling =>
      Some(e.(signalled := if e.handle.Some? then e.signalled + {e.handle.value} else e.signalled,
              setters := e.setters[i := SetDone]))
    case SetDone => None
  }

  /** `retest` tells whether the flag is tested again once the handle has been allocated. */
  function StepOfWait(e: Event, j: nat, retest: bool): Option<Event>
    requires j < |e.waiters|
  {
    match e.waiters[j]
    case Testing => Some(e.(waiters := e.waiters[j := if e.state then WaitDone else LookingForHandle]))
    case LookingForHandle =>
      Some(e.(waiters := e.waiters[j := if e.handle.None? then Allocating else if retest then Retesting else Opening]))
    case Allocating =>
      Some(e.(handle := Some(e.created), created := e.created + 1, overwritten := e.overwritten || e.handle.Some?,
              waiters := e.waiters[j := if retest then Retesting else Opening]))
    case Retesting => Some(e.(waiters := e.waiters[j := if e.state then WaitDone else Opening]))
    case Opening => if e.handle.Some? then Some(e.(waiters := e.waiters[j := Blocked(e.handle.value)])) else None
    case Blocked(h) => if h in e.signalled then Some(e.(waiters := e.waiters[j := WaitDone])) else None
    case WaitDone => None
  }

  function Next(e: Event, a: Action, retest: bool): Option<Event> {
    match a
    case CallSet => Some(e.(setters := e.setters + [Exchanging]))
    case StepSet(i) => if i < |e.setters| then StepOfSet(e, i) else None
    case CallWait =>
      Some(e.(waiters := e.waiters + [Testing],
              crowded := e.crowded || exists k: nat :: k < |e.waiters| && !e.waiters[k].WaitDone?))
    case StepWait(j) => if j < |e.waiters| then StepOfWait(e, j, retest) else None
  }

  function Steps(retest: bool): (Event, Action) -> Option<Event> { (e, a) => Next(e, a, retest) }

  // ---------------------------------------------------------------- invariant

  ghost predicate SetUnderWay(e: Event) {
    exists i: nat :: i < |e.setters| && e.setters[i].UnderWay()
  }

  /** Whoever waits has a handle to wait for, and unless it was overwritten it is the one. */
  ghost predicate Handles(e: Event) {
    && (e.handle.None? ==> e.signalled == {})
    && (forall j: nat :: j < |e.waiters| && e.waiters[j].HasHandle() ==> e.handle.Some?)
    && (!e.overwritten ==> forall j: nat :: j < |e.waiters| && e.waiters[j].Blocked? ==> e.handle == Some(e.waiters[j].h))
    && (forall i: nat :: i < |e.setters| && e.setters[i].Signalling? ==> e.handle.Some?)
  }

  /** Once the flag is set, those who are going to wait are signalled, or will be. */
  ghost predicate Signalled(e: Event) {
    e.state && (exists j: nat :: j < |e.waiters| && e.waiters[j].Committed()) && !e.overwritten ==>
      SetUnderWay(e) || (e.handle.Some? && e.handle.value in e.signalled)
  }

  /** As long as no two callers wait at a time, nobody overwrites a handle. */
  ghost predicate Uncrowded(e: Event) {
    !e.crowded ==>
      && !e.overwritten
      && (forall j: nat :: j + 1 < |e.waiters| ==> e.waiters[j].WaitDone?)
      && (forall j: nat :: j < |e.waiters| && e.waiters[j].Allocating? ==> e.handle.None?)
  }

  ghost predicate Inv(e: Event) { Handles(e) && Signalled(e) && Uncrowded(e) }

  lemma SetKeeps(e: Event, i: nat)
    requires Inv(e) && i < |e.setters| && StepOfSet(e, i).Some?
    ensures Inv(StepOfSet(e, i).value)
  {
    var e' := StepOfSet(e, i).value;
    assert e'.setters[i].UnderWay() ==> SetUnderWay(e');
    if k: nat :| k < |e.setters| && k != i && e.setters[k].UnderWay() {
      assert e'.setters[k].UnderWay();
    }
    assert e'.waiters == e.waiters && e'.overwritten == e.overwritten;
  }

  lemma WaitKeeps(e: Event, j: nat)
    requires Inv(e) && j < |e.waiters| && StepOfWait(e, j, true).Some?
    ensures Inv(StepOfWait(e, j, true).value)
  {
    var e' := StepOfWait(e, j, true).value;
    assert SetUnderWay(e') == SetUnderWay(e);
    assert forall k: nat :: k < |e'.waiters| && k != j ==> e'.waiters[k] == e.waiters[k];
    assert Signalled(e') by {
      if k: nat :| k < |e'.waiters| && k != j && e'.waiters[k].Committed() {
        assert e.waiters[k].Committed();
      }
    }
  }

  lemma StepKeeps(e: Event, a: Action)
    requires Inv(e) && Next(e, a, true).Some?
    ensures Inv(Next(e, a, true).value)
  {
    var e' := Next(e, a, true).value;
    match a
    case CallSet =>
      if k: nat :| k < |e.setters| && e.setters[k].UnderWay() {
        assert e'.setters[k].UnderWay();
      }
    case StepSet(i) => SetKeeps(e, i);
    case CallWait =>
      assert SetUnderWay(e') == SetUnderWay(e);
      if k: nat :| k < |e'.waiters| && e'.waiters[k].Committed() {
        assert e.waiters[k].Committed();
      }
    case StepWait(j) => WaitKeeps(e, j);
  }

  lemma {:induction false} RunKeeps(e: Event, run: seq<Action>)
    requires Inv(e) && Exec(Steps(true), e, run).Some?
    ensures Inv(Exec(Steps(true), e, run).value)
    decreases |run|
  {
    hide Inv, Next;
    if |run| > 0 {
      StepKeeps(e, run[0]);
      RunKeeps(Next(e, run[0], true).value, run[1..]);
    }
  }

  ghost predicate Reached(e: Event, run: seq<Action>, retest: bool) {
    Exec(Steps(retest), NewEvent(), run) == Some(e)
  }

  // ---------------------------------------------------------------- guarantees

  /** A few own steps of a waiter that bring it to the end of its call. */
  ghost predicate EndsWait(e: Event, j: nat, steps: seq<Action>) {
    && |steps| <= 6 && (forall k :: 0 <= k < |steps| ==> steps[k] == StepWait(j))
    && Exec(Steps(true), e, steps).Some? && j < |Exec(Steps(true), e, steps).value.waiters|
    && Exec(Steps(true), e, steps).value.waiters[j].WaitDone?
  }

  /** The step stores a new handle although another caller has stored one since it looked. */
  predicate Overwrites(e: Event, a: Action) {
    a.StepWait? && a.j < |e.waiters| && e.waiters[a.j].Allocating? && e.handle.Some?
  }

  ghost predicate NeverOverwrites(e: Event, run: seq<Action>, retest: bool)
    requires Exec(Steps(retest), e, run).Some?
    decreases |run|
  {
    |run| > 0 ==> !Overwrites(e, run[0]) && NeverOverwrites(Next(e, run[0], retest).value, run[1..], retest)
  }

  /** A handle gets lost in a run if and only if one of its steps overwrites it. */
  lemma {:induction false} OverwritingIsExact(e: Event, run: seq<Action>, retest: bool)
    requires Exec(Steps(retest), e, run).Some?
    ensures Exec(Steps(retest), e, run).value.overwritten <==> e.overwritten || !NeverOverwrites(e, run, retest)
    decreases |run|
  {
    if |run| > 0 {
      OverwrittenByStep(e, run[0], retest);
      hide Next, Overwrites;
      OverwritingIsExact(Next(e, run[0], retest).value, run[1..], retest);
    }
  }

  lemma OverwrittenByStep(e: Event, a: Action, retest: bool)
    requires Next(e, a, retest).Some?
    ensures Next(e, a, retest).value.overwritten <==> e.overwritten || Overwrites(e, a)
  {
  }

  /** No lost wake-up: once the flag is set and no Set is half done, everybody who waits gets
      through on steps of his own, however many callers wait at a time, provided none has stored
      its handle over that of another. */
  lemma NobodyBlockedForever(e: Event, run: seq<Action>, j: nat)
    requires Reached(e, run, true) && NeverOverwrites(NewEvent(), run, true)
    requires e.state && !SetUnderWay(e) && j < |e.waiters|
    ensures exists steps :: EndsWait(e, j, steps)
  {
    RunKeeps(NewEvent(), run);
    OverwritingIsExact(NewEvent(), run, true);
    hide Inv;
    var steps := GetThrough(e, j);
    assert EndsWait(e, j, steps);
  }

  /** In particular if callers wait one at a time. */
  lemma NobodyBlockedAlone(e: Event, run: seq<Action>, j: nat)
    requires Reached(e, run, true) && !e.crowded
    requires e.state && !SetUnderWay(e) && j < |e.waiters|
    ensures exists steps :: EndsWait(e, j, steps)
  {
    RunKeeps(NewEvent(), run);
    OverwritingIsExact(NewEvent(), run, true);
    NobodyBlockedForever(e, run, j);
  }

  /** Who has not yet decided to wait for a handle sees the flag, even if he overwrites one. */
  lemma GetThrough(e: Event, j: nat) returns (steps: seq<Action>)
    requires Inv(e) && e.state && !SetUnderWay(e) && j < |e.waiters|
    requires e.waiters[j].Committed() ==> !e.overwritten
    ensures |steps| <= e.waiters[j].StepsLeft() && forall k :: 0 <= k < |steps| ==> steps[k] == StepWait(j)
    ensures Exec(Steps(true), e, steps).Some? && j < |Exec(Steps(true), e, steps).value.waiters|
    ensures Exec(Steps(true), e, steps).value.waiters[j].WaitDone?
    decreases e.waiters[j].StepsLeft()
  {
    steps := [];
    if !e.waiters[j].WaitDone? {
      assert e.waiters[j].Committed() ==> Signalled(e);
      var e' := StepOfWait(e, j, true).value;
      WaitKeeps(e, j);
      var more := GetThrough(e', j);
      steps := [StepWait(j)] + more;
      assert steps[1..] == more;
    }
  }

  /** A waiter is stuck: the flag is set, no Set is half done, and its handle is not signalled. */
  ghost predicate Stuck(e: Event, j: nat) {
    && e.state && (forall i: nat :: i < |e.setters| ==> e.setters[i].SetDone? || e.setters[i].Exchanging?)
    && j < |e.waiters| && e.waiters[j].Blocked? && e.waiters[j].h !in e.signalled
  }

  lemma StuckStays(e: Event, j: nat, a: Action, retest: bool)
    requires Stuck(e, j) && Next(e, a, retest).Some?
    ensures Stuck(Next(e, a, retest).value, j)
  {
  }

  /** Nothing that anybody does helps a stuck waiter. */
  lemma {:induction false} StuckForever(e: Event, j: nat, run: seq<Action>, retest: bool)
    requires Stuck(e, j) && Exec(Steps(retest), e, run).Some?
    ensures Stuck(Exec(Steps(retest), e, run).value, j)
    decreases |run|
  {
    hide Next, Stuck;
    if |run| > 0 {
      StuckStays(e, j, run[0], retest);
      StuckForever(Next(e, run[0], retest).value, j, run[1..], retest);
    }
  }

  /** Without the second test, as in WaitForEndOrTimeout, one caller is enough to get stuck. */
  lemma LostWithoutRetest() returns (run: seq<Action>, e: Event)
    ensures Reached(e, run, false) && !e.crowded && Stuck(e, 0)
  {
    hide Exec;
    run, e := [], NewEvent();
    assert Reached(e, run, false) by { Start(Steps(false), e); }
    run, e := Step(Steps(false), NewEvent(), run, e, CallWait);
    run, e := Step(Steps(false), NewEvent(), run, e, StepWait(0));
    run, e := Step(Steps(false), NewEvent(), run, e, CallSet);
    run, e := Step(Steps(false), NewEvent(), run, e, StepSet(0));
    run, e := Step(Steps(false), NewEvent(), run, e, StepSet(0));
    run, e := Step(Steps(false), NewEvent(), run, e, StepWait(0));
    run, e := Step(Steps(false), NewEvent(), run, e, StepWait(0));
    run, e := Step(Steps(false), NewEvent(), run, e, StepWait(0));
  }

  /** With two callers waiting at once the second test is not enough: both may allocate, and
      the first one waits for the handle that was overwritten. */
  lemma LostWhenCrowded() returns (run: seq<Action>, e: Event)
    ensures Reached(e, run, true) && Stuck(e, 0)
  {
    hide Exec;
    run, e := [], NewEvent();
    assert Reached(e, run, true) by { Start(Steps(true), e); }
    run, e := Step(Steps(true), NewEvent(), run, e, CallWait);
    run, e := Step(Steps(true), NewEvent(), run, e, CallWait);
    run, e := Step(Steps(true), NewEvent(), run, e, StepWait(0));
    run, e := Step(Steps(true), NewEvent(), run, e, StepWait(0));
    run, e := Step(Steps(true), NewEvent(), run, e, StepWait(1));
    run, e := Step(Steps(true), NewEvent(), run, e, StepWait(1));
    run, e := Step(Steps(true), NewEvent(), run, e, StepWait(0));
    run, e := Step(Steps(true), NewEvent(), run, e, StepWait(0));
    run, e := Step(Steps(true), NewEvent(), run, e, StepWait(0));
    assert e.waiters[0] == Blocked(0);
    run, e := Step(Steps(true), NewEvent(), run, e, StepWait(1));
    run, e := Step(Steps(true), NewEvent(), run, e, CallSet);
    run, e := Step(Steps(true), NewEvent(), run, e, StepSet(0));
    run, e := Step(Steps(true), NewEvent(), run, e, StepSet(0));
    run, e := Step(Steps(true), NewEvent(), run, e, StepSet(0));
  }

}
