/** The process-wide pool that lends threads to schedulers, as a value. */
module SharedPool {
  import opened SchedulerModel

  datatype Pool = Pool(
    idle: seq<Tid>, allocCount: int, maxCount: int, yetToCreate: int, starving: seq<Sid>)
  {
    /** TryAlloc: what the pool offers, and the pool once the offer is taken. */
    function Lend(): Pool {
      if |idle| > 0
      then this.(idle := idle[..|idle| - 1], allocCount := allocCount + 1)
      else this.(yetToCreate := yetToCreate - 1, allocCount := allocCount + 1)
    }

    predicate Exhausted() { |idle| == 0 && yetToCreate == 0 }

    /** The thread TryAlloc returns; a new one, named by the caller, if the pool is empty. */
    function Offer(anew: Tid): Tid {
      if |idle| > 0 then idle[|idle| - 1] else anew
    }

    /** Release keeps the thread only while the pool is not over its size. */
    predicate Keeps() { |idle| + (allocCount - 1) < maxCount }

    function TakeBack(t: Tid): Pool {
      this.(allocCount := allocCount - 1, idle := if Keeps() then idle + [t] else idle)
    }

    predicate HasStarving() { |starving| > 0 && |idle| > 0 }

    function AddStarving(s: Sid): Pool { this.(starving := starving + [s]) }

    function RemoveStarving(s: Sid): Pool { this.(starving := Without(starving, s)) }

    /** SetThreadCount: raising the limit recomputes what may still be created, with
        `allocCount` added; lowering it drops idle threads only. */
    function SetCount(count: nat): Pool {
      this.(maxCount := count,
            yetToCreate := if |idle| + allocCount < count then count - |idle| + allocCount else yetToCreate,
            idle := idle[..Surviving(count)])
    }

    /** How many idle threads a new limit leaves. */
    function Surviving(count: nat): (n: nat)
      ensures n <= |idle|
    {
      if |idle| + allocCount <= count then |idle|
      else if allocCount <= count then count - allocCount
      else 0
    }

    /** Everything the limit allows is lent, idle or still to be created; nothing more. */
    predicate Balanced() {
      0 <= allocCount && 0 <= yetToCreate && allocCount + |idle| + yetToCreate == maxCount
    }
  }

  function Without(s: seq<Sid>, x: Sid): (r: seq<Sid>)
    ensures x !in r
    ensures forall y :: y in r <==> y in s && y != x
  {
    if |s| == 0 then []
    else if s[0] == x then Without(s[1..], x)
    else
      assert forall y :: y in s <==> y == s[0] || y in s[1..];
      [s[0]] + Without(s[1..], x)
  }

  lemma {:induction false} WithoutKeeps(s: seq<Sid>, x: Sid)
    requires NoDup(s)
    ensures NoDup(Without(s, x))
  {
    if |s| > 0 {
      assert s[1..][..] == s[1..];
      WithoutKeeps(s[1..], x);
      if s[0] != x {
        assert s[0] !in s[1..] by {
          assert forall i :: 0 <= i < |s[1..]| ==> s[1..][i] == s[i + 1];
        }
      }
    }
  }

  /** When changing the limit leaves the pool balanced: it may be raised only while nothing
      is lent, and lowered only to what is lent or idle, with nothing left to create. */
  predicate SafeToSet(p: Pool, count: nat) {
    if |p.idle| + p.allocCount < count then p.allocCount == 0
    else p.allocCount <= count && p.yetToCreate == 0
  }

  /** The exact condition under which SetThreadCount keeps the documented bound. */
  lemma SetCountExact(p: Pool, count: nat)
    requires p.Balanced()
    ensures p.SetCount(count).Balanced() <==> SafeToSet(p, count)
  {
  }

  /** Raising the limit by one while one thread is lent admits two threads too many. */
  lemma SetCountOvercommits()
    ensures var p := Pool([], 1, 1, 0, []);
            p.Balanced() && !p.SetCount(2).Balanced()
            && p.SetCount(2).Lend().Lend().Lend().allocCount == 4 && p.SetCount(2).maxCount == 2
  {
  }
}
