/** The job queue of a scheduler: a double-ended sequence kept in one buffer that is
    compacted or doubled in place when its write end reaches the end of the buffer. */
module JobQueue {

  /** One call made on a queue; popping is only attempted while the queue is not empty. */
  datatype Op<T> = Push(job: T) | Pop | SetFifo(newValue: bool)

  /** What a queue stands for: its jobs, oldest first, and the end `pop` takes them from. */
  datatype Deque<T> = Deque(jobs: seq<T>, fifo: bool) {

    function Do(op: Op<T>): Deque<T> {
      match op
      case Push(job) => this.(jobs := jobs + [job])
      case SetFifo(newValue) => this.(fifo := newValue)
      case Pop =>
        if |jobs| == 0 then this
        else if fifo then this.(jobs := jobs[1..])
        else this.(jobs := jobs[..|jobs| - 1])
    }

    /** The job that `Pop` hands out, if there is one. */
    function Out(op: Op<T>): seq<T> {
      if op.Pop? && |jobs| > 0 then [if fifo then jobs[0] else jobs[|jobs| - 1]] else []
    }
  }

  function After<T>(ops: seq<Op<T>>): Deque<T> {
    if |ops| == 0 then Deque([], true) else After(ops[..|ops| - 1]).Do(ops[|ops| - 1])
  }

  /** Everything handed out by a run, in order. */
  function Handed<T>(ops: seq<Op<T>>): seq<T> {
    if |ops| == 0 then []
    else Handed(ops[..|ops| - 1]) + After(ops[..|ops| - 1]).Out(ops[|ops| - 1])
  }

  function Pushed<T>(ops: seq<Op<T>>): nat {
    if |ops| == 0 then 0
    else Pushed(ops[..|ops| - 1]) + if ops[|ops| - 1].Push? then 1 else 0
  }

  /** The largest number of jobs queued at any moment of a run. */
  function Peak<T>(ops: seq<Op<T>>): nat {
    if |ops| == 0 then 0
    else Max(Peak(ops[..|ops| - 1]), |After(ops).jobs|)
  }

  function Max(a: nat, b: nat): nat { if a >= b then a else b }

  lemma StepConserves<T>(d: Deque<T>, op: Op<T>)
    ensures multiset(d.Out(op)) + multiset(d.Do(op).jobs)
         == multiset(d.jobs) + multiset(if op.Push? then [op.job] else [])
  {
    if op.Pop? && |d.jobs| > 0 {
      if d.fifo {
        assert d.jobs == [d.jobs[0]] + d.jobs[1..];
      } else {
        assert d.jobs == d.jobs[..|d.jobs| - 1] + [d.jobs[|d.jobs| - 1]];
      }
    }
  }

  lemma Combine<T>(handed: seq<T>, out: seq<T>, queued: seq<T>, left: seq<T>, pushed: seq<T>, added: seq<T>)
    requires multiset(handed) + multiset(queued) == multiset(pushed)
    requires multiset(out) + multiset(left) == multiset(queued) + multiset(added)
    ensures multiset(handed + out) + multiset(left) == multiset(pushed + added)
  {
    assert multiset(handed + out) == multiset(handed) + multiset(out);
    assert multiset(pushed + added) == multiset(pushed) + multiset(added);
    assert multiset(handed) + multiset(out) + multiset(left)
        == multiset(handed) + (multiset(out) + multiset(left));
    assert multiset(handed) + multiset(queued) + multiset(added)
        == multiset(handed) + (multiset(queued) + multiset(added));
  }

  /** No job is lost, duplicated or invented: what was handed out plus what is still
      queued is, as a multiset, exactly what was pushed. */
  lemma {:induction false} HandedPlusQueuedIsPushed<T>(ops: seq<Op<T>>)
    ensures multiset(Handed(ops)) + multiset(After(ops).jobs) == multiset(PushedJobs(ops))
  {
    if |ops| > 0 {
      var before, op := ops[..|ops| - 1], ops[|ops| - 1];
      HandedPlusQueuedIsPushed(before);
      var d := After(before);
      StepConserves(d, op);
      var added := if op.Push? then [op.job] else [];
      Combine(Handed(before), d.Out(op), d.jobs, d.Do(op).jobs, PushedJobs(before), added);
    }
  }

  function PushedJobs<T>(ops: seq<Op<T>>): seq<T> {
    if |ops| == 0 then []
    else PushedJobs(ops[..|ops| - 1]) + if ops[|ops| - 1].Push? then [ops[|ops| - 1].job] else []
  }

  /** One more operation. */
  lemma HistoryNext<T>(ops: seq<Op<T>>, i: nat)
    requires i < |ops|
    ensures After(ops[..i + 1]) == After(ops[..i]).Do(ops[i])
    ensures Handed(ops[..i + 1]) == Handed(ops[..i]) + After(ops[..i]).Out(ops[i])
    ensures Pushed(ops[..i + 1]) == Pushed(ops[..i]) + if ops[i].Push? then 1 else 0
    ensures Peak(ops[..i + 1]) == Max(Peak(ops[..i]), |After(ops[..i + 1]).jobs|)
  {
    assert ops[..i + 1][..i] == ops[..i];
  }

  lemma HistoryStart<T>(ops: seq<Op<T>>)
    ensures After(ops[..0]) == Deque([], true) && Handed(ops[..0]) == [] && Pushed(ops[..0]) == 0 == Peak(ops[..0])
  {
  }

  /** While the order is never switched away from FIFO, jobs leave in the order they came. */
  lemma {:induction false} FifoKeepsOrder<T>(ops: seq<Op<T>>)
    requires SetFifo(false) !in ops
    ensures After(ops).fifo && Handed(ops) + After(ops).jobs == PushedJobs(ops)
  {
    if |ops| > 0 {
      var before, op := ops[..|ops| - 1], ops[|ops| - 1];
      FifoKeepsOrder(before);
      var d, out := After(before), Handed(before);
      assert d.fifo && SetFifo(false) != op;
      match op
      case Push(job) => assert (out + d.jobs) + [job] == out + (d.jobs + [job]);
      case Pop =>
        if |d.jobs| > 0 {
          assert (out + [d.jobs[0]]) + d.jobs[1..] == out + d.jobs;
        }
      case SetFifo(_) =>
    }
  }

  const INITIAL_CAPACITY: nat := 1024

  class CQueue<T(0)> {
    var data: array<T>
    var first: nat
    var last: nat
    var fifo: bool

    // Accounting of the work done so far; not part of the program.
    ghost var pushes: nat
    ghost var moves: nat       // entries copied by AutoGrow
    ghost var peak: nat        // largest size seen
    ghost var sinceGrow: nat   // pushes since the buffer was last compacted or doubled

    ghost predicate Valid()
      reads this, data
    {
      && first <= last < data.Length
      && INITIAL_CAPACITY <= data.Length
      && sinceGrow <= pushes
      && 2 * last <= data.Length + 2 * sinceGrow
      && moves <= 2 * (pushes - sinceGrow)
      && last - first <= peak
      && data.Length <= Max(INITIAL_CAPACITY, 4 * peak)
    }

    function Contents(): seq<T>
      reads this, data
      requires first <= last <= data.Length
    {
      data[first..last]
    }

    ghost function View(): Deque<T>
      reads this, data
      requires first <= last <= data.Length
    {
      Deque(Contents(), fifo)
    }

    constructor ()
      ensures Valid() && fresh(data)
      ensures View() == Deque([], true) && data.Length == 1024
      ensures pushes == 0 && moves == 0 && peak == 0
    {
      data := new T[0];
      first, last, fifo := 0, 0, true;
      pushes, moves, peak, sinceGrow := 0, 0, 0, 0;
      new;
      Grow(INITIAL_CAPACITY);
    }

    /** Replaces the buffer by a larger one, moving the entries to its start. */
    method Grow(newSize: nat)
      requires first <= last <= data.Length && last - first <= newSize
      modifies this`data, this`first, this`last, this`moves
      ensures fresh(data) && data.Length == newSize
      ensures first == 0 && last == old(last - first)
      ensures Contents() == old(Contents())
      ensures moves == old(moves) + old(last - first)
    {
      var newData := new T[newSize];
      var count := last - first;
      forall i | 0 <= i < count {
        newData[i] := data[first + i];
      }
      moves := moves + count;
      data := newData;
      first := 0;
      last := count;
    }

    /** Makes room when the write end has reached the end of the buffer. */
    method AutoGrow()
      requires first <= last == data.Length && INITIAL_CAPACITY <= data.Length
      modifies this`data, this`first, this`last, this`moves, data
      ensures data == old(data) || fresh(data)
      ensures first == 0 && last == old(last - first) && 2 * last <= data.Length
      ensures data.Length == if 2 * last <= old(data.Length) then old(data.Length) else 2 * old(data.Length)
      ensures Contents() == old(Contents())
      ensures moves == old(moves) + last
    {
      var count := last - first;
      if count * 2 <= data.Length {
        // an overlapping move towards the start of the same buffer
        forall i | 0 <= i < count {
          data[i] := data[first + i];
        }
        moves := moves + count;
        first := 0;
        last := count;
      } else {
        Grow(data.Length * 2);
      }
    }

    method Push(job: T)
      requires Valid()
      modifies this, data
      ensures Valid() && (data == old(data) || fresh(data))
      ensures View() == old(View()).Do(Op.Push(job))
      ensures pushes == old(pushes) + 1 && peak == Max(old(peak), |Contents()|)
    {
      data[last] := job;
      last := last + 1;
      ghost var contents := data[first..last];
      assert contents == old(Contents()) + [job];
      pushes, sinceGrow, peak := pushes + 1, sinceGrow + 1, Max(peak, last - first);
      if last == data.Length {
        AutoGrow();
        sinceGrow := 0;
      }
    }

    method Pop() returns (job: T)
      requires Valid() && !Empty()
      modifies this`first, this`last
      ensures Valid()
      ensures View() == old(View()).Do(Op.Pop) && [job] == old(View()).Out(Op.Pop)
    {
      if fifo {
        job := data[first];
        first := first + 1;
      } else {
        last := last - 1;
        job := data[last];
      }
    }

    method SetFifo(newValue: bool)
      requires Valid()
      modifies this`fifo
      ensures Valid() && View() == old(View()).Do(Op.SetFifo(newValue))
    {
      fifo := newValue;
    }

    function Empty(): (r: bool)
      reads this, data
      requires Valid()
      ensures r <==> Contents() == []
    {
      first == last
    }

    function Size(): (r: nat)
      reads this, data
      requires Valid()
      ensures r == |Contents()|
    {
      last - first
    }
  }

  method Perform<T(0)>(queue: CQueue<T>, op: Op<T>) returns (out: seq<T>)
    requires queue.Valid()
    modifies queue, queue.data
    ensures queue.Valid() && (queue.data == old(queue.data) || fresh(queue.data))
    ensures queue.View() == old(queue.View()).Do(op) && out == old(queue.View()).Out(op)
    ensures queue.pushes == old(queue.pushes) + if op.Push? then 1 else 0
    ensures queue.peak == Max(old(queue.peak), |queue.Contents()|)
  {
    out := [];
    match op
    case Push(job) => queue.Push(job);
    case Pop =>
      if !queue.Empty() {
        var job := queue.Pop();
        out := [job];
      }
    case SetFifo(newValue) => queue.SetFifo(newValue);
  }

  /** A whole run on a new queue: it behaves as the deque does, copies at most two entries
      per push, and its buffer never exceeds four times the largest number of jobs queued. */
  method Run<T(0)>(ops: seq<Op<T>>) returns (handed: seq<T>, remaining: seq<T>, capacity: nat, ghost moves: nat)
    ensures handed == Handed(ops)
    ensures remaining == After(ops).jobs
    ensures moves <= 2 * Pushed(ops)
    ensures capacity <= 1024 || capacity <= 4 * Peak(ops)
  {
    hide After, Handed, Pushed, Peak;
    var queue := new CQueue<T>();
    HistoryStart(ops);
    handed := [];
    for i := 0 to |ops|
      invariant queue.Valid() && fresh(queue) && fresh(queue.data)
      invariant queue.View() == After(ops[..i])
      invariant handed == Handed(ops[..i])
      invariant queue.pushes == Pushed(ops[..i])
      invariant queue.peak == Peak(ops[..i])
    {
      HistoryNext(ops, i);
      var out := Perform(queue, ops[i]);
      handed := handed + out;
    }
    assert ops[..|ops|] == ops;
    remaining := queue.Contents();
    capacity := queue.data.Length;
    moves := queue.moves;
  }
}
