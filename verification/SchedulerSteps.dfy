/** Every step of a scheduler keeps its invariant. */
module SchedulerSteps {
  import opened JobQueue
  import opened SchedulerModel

  lemma AnnounceKeeps(s: Sched, job: Job)
    requires SchedInv(s)
    ensures SchedInv(Announce(s, job))
  {
  }

  lemma EnqueueKeeps(s: Sched, job: Job)
    requires SchedInv(s) && s.pc.Free? && job in s.ledger.announced
    ensures SchedInv(Enqueue(s, job))
  {
    var s' := Enqueue(s, job);
    assert multiset(s'.queue.jobs) == multiset(s.queue.jobs) + multiset{job};
  }

  /** A suspended private thread is resumed. */
  lemma WakeKeeps(s: Sched)
    requires SchedInv(s) && s.pc.Allocating? && s.threads.suspendedCount > 0
    ensures |s.threads.suspended| > 0
    ensures var s' := Continue(s.(threads := s.threads.WakeSuspended()), s.pc.k, true);
            SchedInv(s') && s'.pc.Quiet() && s'.Lent() == s.Lent() && forall t :: t in s'.Held() <==> t in s.Held()
  {
    assert |s.threads.suspended| > 0 by { hide Tallied, HandsOk, Backlog, NobodyForgotten, NoDup; }
    var last := |s.threads.suspended| - 1;
    assert s.threads.suspended == s.threads.suspended[..last] + [s.threads.suspended[last]];
    var s' := Continue(s.(threads := s.threads.WakeSuspended()), s.pc.k, true);
    var n, m := |s.threads.running|, |s.threads.suspended|;
    forall i, j | 0 <= i < j < n + m ensures s'.Held()[i] != s'.Held()[j] {
      var i' := if i < n then i else if i == n then n + m - 1 else i - 1;
      var j' := if j < n then j else if j == n then n + m - 1 else j - 1;
      assert s'.Held()[i] == s.Held()[i'] && s'.Held()[j] == s.Held()[j'];
    }
  }

  /** A thread that the scheduler did not hold starts running for it. */
  lemma JoinKeeps(s: Sched, t: Tid, th: Threads)
    requires SchedInv(s) && s.pc.Allocating? && s.threads.suspendedCount == 0 && t !in s.Held()
    requires || (s.threads.yetToCreate > 0 && th == s.threads.StartPrivate(t))
             || (s.threads.NoneIdle() && s.threads.fromShared < s.threads.maxFromShared && th == s.threads.TakeShared(t))
    ensures var s' := Continue(s.(threads := th), s.pc.k, true);
            SchedInv(s') && s'.pc.Quiet() && s'.Held() == s.Held() + [t]
            && s'.Lent() == s.Lent() + th.fromShared - s.threads.fromShared
  {
    var s' := Continue(s.(threads := th), s.pc.k, true);
    assert s.Held() == s.threads.running;
    assert s'.Held() == s.Held() + [t];
  }

  /** No thread was to be had. */
  lemma NoThreadKeeps(s: Sched)
    requires SchedInv(s) && (s.pc.Allocating? || s.pc.Registering?) && s.threads.NoneIdle()
    ensures SchedInv(Continue(s, s.pc.k, false))
  {
  }

  lemma StarveKeeps(s: Sched)
    requires SchedInv(s) && s.pc.Allocating? && s.threads.NoneIdle() && s.threads.fromShared < s.threads.maxFromShared
    ensures SchedInv(s.(threads := s.threads.(starved := true), pc := Registering(s.pc.k)))
  {
    var s' := s.(threads := s.threads.(starved := true), pc := Registering(s.pc.k));
    assert s'.Held() == s.Held();
  }

  lemma Regroup(a: multiset<Job>, out: multiset<Job>, rest: multiset<Job>, hands: multiset<Job>)
    ensures a + (out + rest) + hands == a + rest + (hands + out)
  {
  }

  lemma TakeJobKeeps(s: Sched, t: Tid)
    requires SchedInv(s) && s.pc.Free? && s.threads.stopCount == 0 && s.queue.jobs != []
    requires t in s.threads.running && !s.Busy(t)
    ensures SchedInv(TakeJob(s, t))
  {
    var s' := TakeJob(s, t);
    var out := s.queue.Out(Pop);
    StepConserves(s.queue, Pop);
    assert multiset(s.queue.jobs) == multiset(out) + multiset(s'.queue.jobs);
    assert JobsOf(s'.ledger.hands) == JobsOf(s.ledger.hands) + out;
    assert multiset(JobsOf(s'.ledger.hands)) == multiset(JobsOf(s.ledger.hands)) + multiset(out);
    Regroup(s.ledger.announced, multiset(out), multiset(s'.queue.jobs), multiset(JobsOf(s.ledger.hands)));
    assert s'.Held() == s.Held();
  }

  lemma GoIdleKeeps(s: Sched, i: nat)
    requires SchedInv(s) && s.pc.Free? && (s.threads.stopCount != 0 || s.queue.jobs == [])
    requires i < |s.threads.running| && !s.Busy(s.threads.running[i])
    ensures SchedInv(GoIdle(s, i))
  {
    var s' := GoIdle(s, i);
    var t, n := s.threads.running[i], |s.threads.running|;
    HeldPrefix(s);
    SwapRemoveKeeps(s.threads.running, i);
    assert s'.threads.running == SwapRemove(s.threads.running, i);
    if s.threads.fromShared > 0 {
      assert s.threads.suspended == [];
      AppendNew(s'.threads.running, t);
      assert s'.Held() == s'.threads.running + [t];
    } else if s.aggressive {
      HeldSplit(s'.threads.running, s.threads.suspended, s.threads.running);
      assert s'.Held() == s'.threads.running + s.threads.suspended;
    } else {
      HeldSplit(s'.threads.running, s.threads.suspended, s.threads.running);
      AppendNew(s'.threads.running + s.threads.suspended, t);
      assert s'.Held() == (s'.threads.running + s.threads.suspended) + [t];
    }
  }

  lemma HeldPrefix(s: Sched)
    requires NoDup(s.Held())
    ensures NoDup(s.threads.running) && NoDup(s.threads.suspended)
    ensures forall t :: t in s.threads.running ==> t !in s.threads.suspended
  {
    var h, n := s.Held(), |s.threads.running|;
    assert forall i :: 0 <= i < n ==> h[i] == s.threads.running[i];
    assert forall i :: 0 <= i < |s.threads.suspended| ==> h[n + i] == s.threads.suspended[i];
  }

  lemma AppendNew(s: seq<Tid>, t: Tid)
    requires NoDup(s) && t !in s
    ensures NoDup(s + [t])
  {
  }

  lemma HeldSplit(part: seq<Tid>, other: seq<Tid>, whole: seq<Tid>)
    requires NoDup(part) && NoDup(other)
    requires forall t :: t in part ==> t in whole
    requires forall t :: t in whole ==> t !in other
    ensures NoDup(part + other)
  {
    forall i, j | 0 <= i < j < |part + other| ensures (part + other)[i] != (part + other)[j] {
      if i < |part| <= j {
        assert part[i] in whole && other[j - |part|] in other;
      }
    }
  }

  lemma UnstarveKeeps(s: Sched)
    requires SchedInv(s) && s.pc.Unstarving?
    ensures SchedInv(s.(threads := s.threads.(starved := false), pc := Giving(s.pc.t)))
    ensures s.pc.t !in s.threads.running + s.threads.suspended
  {
    var s' := s.(threads := s.threads.(starved := false), pc := Giving(s.pc.t));
    assert s.Held() == s'.Held() + [s.pc.t];
    assert s.Held()[|s.Held()| - 1] == s.pc.t;
    assert s'.Held() == s.threads.running + s.threads.suspended;
    assert forall i :: 0 <= i < |s'.Held()| ==> s'.Held()[i] == s.Held()[i];
  }

  /** Moving on between the places where a returned thread is being announced. */
  lemma ReturnedKeeps(s: Sched, pc: Pc)
    requires SchedInv(s) && (s.pc.Giving? || s.pc.Returned()) && pc.Returned()
    ensures SchedInv(s.(pc := pc))
  {
    assert s.(pc := pc).Held() == s.Held();
  }

  lemma GiveDoneKeeps(s: Sched)
    requires SchedInv(s) && (s.pc.Giving? || s.pc.Returned())
    ensures SchedInv(GiveDone(s))
  {
    assert GiveDone(s).Held() == s.Held();
  }

  /** ThreadAvailable begins: the scheduler is no longer starved and may ask again. */
  lemma ServedKeeps(s: Sched, giver: Sid)
    requires SchedInv(s) && s.pc.Free?
    ensures SchedInv(Continue(s.(threads := s.threads.(starved := false)), Serving(giver), true))
  {
    var s' := Continue(s.(threads := s.threads.(starved := false)), Serving(giver), true);
    assert s'.Held() == s.Held();
  }

  lemma HandsWithout(hands: seq<Hand>, i: nat)
    requires i < |hands|
    ensures multiset(JobsOf(hands)) == multiset(JobsOf(hands[..i] + hands[i + 1..])) + multiset{hands[i].job}
  {
    var before, after := JobsOf(hands[..i]), JobsOf(hands[i + 1..]);
    assert JobsOf(hands) == before + [hands[i].job] + after;
    assert JobsOf(hands[..i] + hands[i + 1..]) == before + after;
    assert multiset(before + [hands[i].job] + after) == multiset(before + after) + multiset{hands[i].job};
  }

  lemma FinishJobKeeps(s: Sched, i: nat)
    requires SchedInv(s) && i < |s.ledger.hands|
    ensures SchedInv(FinishJob(s, i))
  {
    hide NoDup, Tallied;
    var hands, s' := s.ledger.hands, FinishJob(s, i);
    FinishTallied(s, i);
    assert forall k :: 0 <= k < |s'.ledger.hands| ==> s'.ledger.hands[k] == hands[if k < i then k else k + 1];
    assert s'.Held() == s.Held();
  }

  lemma FinishTallied(s: Sched, i: nat)
    requires Tallied(s) && i < |s.ledger.hands|
    ensures Tallied(FinishJob(s, i))
  {
    var l, l' := s.ledger, FinishJob(s, i).ledger;
    HandsWithout(l.hands, i);
    assert JobsOf(l'.hands) == JobsOf(l.hands[..i] + l.hands[i + 1..]);
    FinishRegroup(l.announced + multiset(s.queue.jobs), multiset(JobsOf(l'.hands)), multiset{l.hands[i].job}, l.finished, l.removed);
  }

  lemma FinishRegroup(a: multiset<Job>, h: multiset<Job>, one: multiset<Job>, f: multiset<Job>, r: multiset<Job>)
    ensures a + (h + one) + f + r == a + h + (f + one) + r
  {
  }

  lemma StopKeeps(s: Sched)
    requires SchedInv(s) && s.pc.Free?
    ensures SchedInv(StopCall(s))
  {
    assert StopCall(s).Held() == s.Held();
  }

  lemma ResumeKeeps(s: Sched)
    requires SchedInv(s) && s.pc.Free? && s.threads.stopCount > 0
    ensures SchedInv(ResumeCall(s))
  {
    assert ResumeCall(s).Held() == s.Held();
  }

  lemma Split(all: multiset<Job>, out: seq<Job>, rest: seq<Job>, left: multiset<Job>, left': multiset<Job>)
    requires multiset(out) + left == all && left' + multiset(rest) == left
    ensures left' + multiset(out + rest) == all
  {
    assert multiset(out + rest) == multiset(out) + multiset(rest);
  }

  lemma {:induction false} TakeOffFront(q: Deque<Job>, n: nat)
    requires n <= |q.jobs| && q.fifo
    ensures TakeOff(q, n).0.jobs == q.jobs[n..] && TakeOff(q, n).1 == q.jobs[..n]
    decreases n
  {
    if n > 0 {
      var rest := q.jobs[1..];
      TakeOffFront(q.Do(Pop), n - 1);
      assert rest[n - 1..] == q.jobs[n..];
      assert [q.jobs[0]] + rest[..n - 1] == q.jobs[..n];
    }
  }

  lemma {:induction false} TakeOffBack(q: Deque<Job>, n: nat)
    requires n <= |q.jobs| && !q.fifo
    ensures TakeOff(q, n).0.jobs == q.jobs[..|q.jobs| - n]
    ensures forall i :: 0 <= i < n ==> TakeOff(q, n).1[i] == q.jobs[|q.jobs| - 1 - i]
    decreases n
  {
    if n > 0 {
      var last := |q.jobs| - 1;
      TakeOffBack(q.Do(Pop), n - 1);
      assert q.jobs[..last][..last - (n - 1)] == q.jobs[..|q.jobs| - n];
    }
  }

  /** Jobs are taken off one end, the next one each time. */
  lemma TakeOffEnds(q: Deque<Job>, n: nat)
    requires n <= |q.jobs|
    ensures TakeOff(q, n).0.jobs == if q.fifo then q.jobs[n..] else q.jobs[..|q.jobs| - n]
    ensures forall i :: 0 <= i < n ==> TakeOff(q, n).1[i] == q.jobs[if q.fifo then i else |q.jobs| - 1 - i]
  {
    hide TakeOff;
    if q.fifo {
      TakeOffFront(q, n);
    } else {
      TakeOffBack(q, n);
    }
  }

  lemma {:induction false} TakeOffConserves(q: Deque<Job>, n: nat)
    requires n <= |q.jobs|
    ensures var (q', out) := TakeOff(q, n);
            multiset(q'.jobs) + multiset(out) == multiset(q.jobs) && q'.fifo == q.fifo
    decreases n
  {
    if n > 0 {
      var (q', rest) := TakeOff(q.Do(Pop), n - 1);
      assert TakeOff(q, n) == (q', q.Out(Pop) + rest);
      hide TakeOff;
      StepConserves(q, Pop);
      TakeOffConserves(q.Do(Pop), n - 1);
      Split(multiset(q.jobs), q.Out(Pop), rest, multiset(q.Do(Pop).jobs), multiset(q'.jobs));
    }
  }

  /** Jobs `out` leave the queue unexecuted. */
  lemma DropKeeps(s: Sched, q: Deque<Job>, out: seq<Job>)
    requires SchedInv(s) && s.pc.Free? && multiset(q.jobs) + multiset(out) == multiset(s.queue.jobs)
    ensures SchedInv(s.(queue := q, ledger := s.ledger.(removed := s.ledger.removed + multiset(out))))
  {
    var s' := s.(queue := q, ledger := s.ledger.(removed := s.ledger.removed + multiset(out)));
    assert |q.jobs| + |out| == |multiset(q.jobs) + multiset(out)| == |multiset(s.queue.jobs)|;
    assert s'.Held() == s.Held();
  }

  lemma RemoveJobsKeeps(s: Sched, watermark: nat, oldest: bool)
    requires SchedInv(s) && s.pc.Free?
    ensures SchedInv(RemoveJobs(s, watermark, oldest))
  {
    if |s.queue.jobs| > watermark {
      var q, n := s.queue.Do(SetFifo(oldest == s.queue.fifo)), |s.queue.jobs| - watermark;
      TakeOffConserves(q, n);
      var (q', out) := TakeOff(q, n);
      var kept := q'.Do(SetFifo(s.queue.fifo));
      assert kept.jobs == q'.jobs;
      DropKeeps(s, kept, out);
      assert RemoveJobs(s, watermark, oldest)
          == s.(queue := kept, ledger := s.ledger.(removed := s.ledger.removed + multiset(out)));
    }
  }

  lemma DrainedKeeps(s: Sched)
    requires SchedInv(s) && s.pc.Free?
    ensures SchedInv(Drained(s))
    ensures s.threads.stopCount != 0 ==> Drained(s).queue.jobs == []
  {
    if s.threads.stopCount != 0 {
      TakeOffConserves(s.queue, |s.queue.jobs|);
      var (q', out) := TakeOff(s.queue, |s.queue.jobs|);
      DropKeeps(s, q', out);
    }
  }

  lemma FallAsleepKeeps(s: Sched)
    requires SchedInv(s) && s.pc.Free? && (s.threads.stopCount != 0 ==> s.queue.jobs == [])
    requires s.threads.runningCount != 0 || s.queue.jobs != []
    ensures SchedInv(FallAsleep(s))
  {
    assert FallAsleep(s).Held() == s.Held();
  }

  lemma WaitTurnKeeps(s: Sched)
    requires SchedInv(s) && s.pc.Free?
    ensures SchedInv(WaitTurn(s))
  {
    hide SchedInv;
    DrainedKeeps(s);
    if !WaitReturns(s) {
      FallAsleepKeeps(Drained(s));
    }
  }

  lemma WakeUpKeeps(s: Sched)
    requires SchedInv(s) && s.ledger.sleepers > 0
    ensures SchedInv(WakeUp(s))
  {
    assert WakeUp(s).Held() == s.Held();
  }

  lemma NewSchedInv(threadCount: nat, shared: nat, aggressive: bool, fifo: bool)
    ensures SchedInv(NewSched(threadCount, shared, aggressive, fifo))
  {
  }
}
