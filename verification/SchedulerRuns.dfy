/** What holds in every run of any number of schedulers over one pool. */
module SchedulerRuns {
  import opened Options
  import opened SchedulerModel
  import opened SchedulerSteps
  import opened SharedPool
  import opened SchedulerWorld

  lemma {:induction false} SumAt(scheds: seq<Sched>, s: Sid, x: Sched)
    requires s < |scheds|
    ensures SumLent(scheds[s := x]) == SumLent(scheds) - scheds[s].Lent() + x.Lent()
  {
    if s == 0 {
      assert scheds[s := x][1..] == scheds[1..];
    } else {
      SumAt(scheds[1..], s - 1, x);
      assert scheds[s := x][1..] == scheds[1..][s - 1 := x];
    }
  }

  lemma {:induction false} SumBounds(scheds: seq<Sched>, s: Sid)
    requires s < |scheds| && forall r :: 0 <= r < |scheds| ==> scheds[r].Lent() >= 0
    ensures 0 <= scheds[s].Lent() <= SumLent(scheds)
  {
    SumNonNegative(scheds[1..]);
    if s > 0 {
      SumBounds(scheds[1..], s - 1);
    }
  }

  lemma {:induction false} SumNonNegative(scheds: seq<Sched>)
    requires forall r :: 0 <= r < |scheds| ==> scheds[r].Lent() >= 0
    ensures SumLent(scheds) >= 0
  {
    if |scheds| > 0 {
      SumNonNegative(scheds[1..]);
    }
  }

  // ---------------------------------------------------------------- places of threads

  lemma PlacesAt(w: World, s: Sid, x: Sched, w': World)
    requires s < |w.scheds| && w'.scheds == w.scheds[s := x]
    ensures PlacesOf(w') == Places(PlacesOf(w).held[s := HeldBy(x)], PlacesOf(w).transit[s := TransitOf(x)],
                                   w'.pool.idle, w'.owner)
  {
  }

  /** A newly created thread starts running for `s`. */
  lemma CreatePlaces(p: Places, s: Sid, t: Tid)
    requires p.Exact() && s < |p.held| && t !in p.owner
    ensures p.(held := p.held[s := p.held[s] + {t}], owner := p.owner[t := Option.Some(s)]).Exact()
  {
    var p' := p.(held := p.held[s := p.held[s] + {t}], owner := p.owner[t := Option.Some(s)]);
    assert forall r: Sid :: r < |p.held| ==> t !in p.held[r] by { hide Places.Pooled, Places.Single; }
    JoinClaimed(p, p', s, t);
    assert p'.Pooled() by { SamePool(p, p', t); }
    assert p'.Single() by { hide Places.Pooled, Places.Claimed; }
  }

  lemma JoinClaimed(p: Places, p': Places, s: Sid, t: Tid)
    requires p.Claimed() && s < |p.held| && forall r: Sid :: r < |p.held| ==> t !in p.held[r]
    requires p'.held == p.held[s := p.held[s] + {t}] && p'.owner == p.owner[t := Option.Some(s)]
    ensures p'.Claimed()
  {
    assert t in p'.held[s];
  }

  /** The threads without an owner are the same, so the pool side is unaffected. */
  lemma SamePool(p: Places, p': Places, t: Tid)
    requires p.Pooled() && p'.idle == p.idle && p'.transit == p.transit
    requires (t in p.owner ==> p.owner[t].Some?) && (t in p'.owner ==> p'.owner[t].Some?)
    requires forall u: Tid :: u != t ==> (u in p.owner <==> u in p'.owner) && (u in p.owner ==> p'.owner[u] == p.owner[u])
    ensures p'.Pooled()
  {
    assert forall u: Tid :: p.InTransit(u) ==> p'.InTransit(u);
  }

  /** A thread that was idle in the pool starts running for `s`. */
  lemma BorrowPlaces(p: Places, s: Sid, t: Tid, idle: seq<Tid>)
    requires p.Exact() && s < |p.held| && p.idle == idle + [t]
    ensures p.(held := p.held[s := p.held[s] + {t}], idle := idle, owner := p.owner[t := Option.Some(s)]).Exact()
  {
    var p' := p.(held := p.held[s := p.held[s] + {t}], idle := idle, owner := p.owner[t := Option.Some(s)]);
    LastOnce(idle, t);
    assert p.owner[t].None? by { hide Places.Claimed, Places.Single; }
    assert forall r: Sid :: r < |p.held| ==> t !in p.held[r] by { hide Places.Pooled, Places.Single; }
    JoinClaimed(p, p', s, t);
    assert p'.Pooled() by {
      hide Places.Claimed, Places.Single, NoDup;
      assert forall u: Tid :: p.InTransit(u) ==> p'.InTransit(u);
    }
    assert p'.Single() by { hide Places.Pooled, Places.Claimed; }
  }

  lemma LastOnce(s: seq<Tid>, t: Tid)
    requires NoDup(s + [t])
    ensures t in s + [t] && t !in s && NoDup(s)
    ensures forall u :: u in s + [t] <==> u in s || u == t
  {
    assert forall i :: 0 <= i < |s| ==> (s + [t])[i] == s[i];
    assert (s + [t])[|s|] == t;
  }

  lemma LeaveClaimed(p: Places, p': Places, s: Sid, t: Tid)
    requires p.Claimed() && s < |p.held| && t in p.held[s]
    requires p'.held == p.held[s := p.held[s] - {t}] && (t in p'.owner ==> p'.owner[t].None?)
    requires forall u: Tid :: u != t ==> (u in p.owner <==> u in p'.owner) && (u in p.owner ==> p'.owner[u] == p.owner[u])
    ensures p'.Claimed()
  {
    forall r: Sid, u: Tid | r < |p'.held| && u in p'.held[r] ensures u in p'.owner && p'.owner[u] == Option.Some(r) {
      assert u in p.held[r] && p.owner[u] == Option.Some(r);
      assert p.owner[t] == Option.Some(s);
    }
  }

  /** A thread of `s` ceases to exist. */
  lemma LeavePlaces(p: Places, s: Sid, t: Tid)
    requires p.Exact() && s < |p.held| && t in p.held[s]
    ensures p.(held := p.held[s := p.held[s] - {t}], owner := p.owner - {t}).Exact()
  {
    var p' := p.(held := p.held[s := p.held[s] - {t}], owner := p.owner - {t});
    LeaveClaimed(p, p', s, t);
    assert p'.Pooled() by { SamePool(p, p', t); }
    assert p'.Single() by { hide Places.Pooled, Places.Claimed; }
  }

  /** A thread of `s` sets out for the pool. */
  lemma DepartPlaces(p: Places, s: Sid, t: Tid)
    requires p.Exact() && s < |p.held| && t in p.held[s] && p.transit[s].None?
    ensures p.(held := p.held[s := p.held[s] - {t}], transit := p.transit[s := Option.Some(t)],
               owner := p.owner[t := None]).Exact()
  {
    var p' := p.(held := p.held[s := p.held[s] - {t}], transit := p.transit[s := Option.Some(t)],
                 owner := p.owner[t := None]);
    assert p.owner[t] == Option.Some(s);
    LeaveClaimed(p, p', s, t);
    assert p'.Pooled() by {
      hide Places.Claimed, Places.Single, NoDup;
      assert p'.transit[s] == Option.Some(t);
      TransitAt(p, p', s, t);
    }
    assert p'.Single() by { hide Places.Claimed; }
  }

  /** Other threads in transit are not affected by what happens at `s`. */
  lemma TransitAt(p: Places, p': Places, s: Sid, t: Tid)
    requires s < |p.transit| == |p'.transit| && (p.transit[s].None? || p.transit[s].value == t)
    requires forall r: Sid :: r < |p.transit| && r != s ==> p'.transit[r] == p.transit[r]
    ensures forall u: Tid :: p.InTransit(u) && u != t ==> p'.InTransit(u)
  {
    forall u: Tid | p.InTransit(u) && u != t ensures p'.InTransit(u) {
      var r: Sid :| r < |p.transit| && p.transit[r] == Option.Some(u);
      assert p'.transit[r] == Option.Some(u);
    }
  }

  /** ... and arrives there. */
  lemma ArrivePlaces(p: Places, s: Sid)
    requires p.Exact() && s < |p.held| && p.transit[s].Some?
    ensures p.(transit := p.transit[s := None], idle := p.idle + [p.transit[s].value]).Exact()
  {
    var t := p.transit[s].value;
    var p' := p.(transit := p.transit[s := None], idle := p.idle + [t]);
    assert p'.Claimed() by { hide Places.Pooled, Places.Single; }
    assert p'.Pooled() by {
      hide Places.Claimed, NoDup;
      assert forall u: Tid :: u in p'.idle <==> u in p.idle || u == t;
      TransitAt(p, p', s, t);
    }
    assert p'.Single() by { hide Places.Claimed; }
  }

  // ---------------------------------------------------------------- starving schedulers

  lemma HungerAt(w: World, s: Sid, x: Sched, w': World)
    requires s < |w.scheds| && w'.scheds == w.scheds[s := x]
    ensures var h := HungerOf(w);
            HungerOf(w') == Hunger(h.starved[s := x.threads.starved], h.registering[s := x.pc.Registering?],
                                   h.handing[s := HandingOf(x)], w'.pool.starving)
  {
  }

  lemma BeginHunger(h: Hunger, s: Sid)
    requires h.Exact() && s < |h.starved| && !h.starved[s]
    ensures h.(starved := h.starved[s := true], registering := h.registering[s := true]).Exact()
  {
    var h' := h.(starved := h.starved[s := true], registering := h.registering[s := true]);
    assert forall b: Sid :: h.BeingNotified(b) ==> h'.BeingNotified(b);
  }

  lemma QueueHunger(h: Hunger, s: Sid)
    requires h.Exact() && s < |h.starved| && h.registering[s]
    ensures h.(registering := h.registering[s := false], queued := h.queued + [s]).Exact()
  {
    var h' := h.(registering := h.registering[s := false], queued := h.queued + [s]);
    assert s in h'.queued && forall b :: b in h.queued ==> b in h'.queued;
    assert forall b: Sid :: h.BeingNotified(b) ==> h'.BeingNotified(b);
  }

  lemma EndHunger(h: Hunger, s: Sid)
    requires h.Exact() && s < |h.starved| && s in h.queued
    ensures h.(starved := h.starved[s := false], queued := Without(h.queued, s)).Exact()
  {
    var h' := h.(starved := h.starved[s := false], queued := Without(h.queued, s));
    WithoutKeeps(h.queued, s);
    assert forall b: Sid :: h.BeingNotified(b) ==> h'.BeingNotified(b);
  }

  lemma SelectHunger(h: Hunger, s: Sid)
    requires h.Exact() && s < |h.starved| && h.handing[s].None? && |h.queued| > 0
    ensures h.(handing := h.handing[s := Option.Some(h.queued[0])], queued := h.queued[1..]).Exact()
  {
    var b0 := h.queued[0];
    var h' := h.(handing := h.handing[s := Option.Some(b0)], queued := h.queued[1..]);
    FirstOnce(h.queued);
    assert h'.QueueOk() by { hide Hunger.HandingOk, Hunger.Known, NoDup; }
    assert h'.HandingOk() by { hide Hunger.Known, NoDup; }
    assert h'.Known() by {
      hide Hunger.HandingOk, Hunger.QueueOk, NoDup;
      assert h'.handing[s] == Option.Some(b0);
      forall b: Sid | h.BeingNotified(b) ensures h'.BeingNotified(b) {
        var r: Sid :| r < |h.handing| && h.handing[r] == Option.Some(b);
        assert h'.handing[r] == Option.Some(b);
      }
    }
  }

  lemma FirstOnce(s: seq<Sid>)
    requires NoDup(s) && |s| > 0
    ensures NoDup(s[1..]) && s[0] in s && s[0] !in s[1..]
    ensures forall b :: b in s <==> b == s[0] || b in s[1..]
  {
    assert s == [s[0]] + s[1..];
    assert forall i :: 0 <= i < |s[1..]| ==> s[1..][i] == s[i + 1];
  }

  lemma ServeHunger(h: Hunger, s: Sid)
    requires h.Exact() && s < |h.starved| && h.handing[s].Some?
    ensures var b := h.handing[s].value;
            h.(starved := h.starved[b := false], handing := h.handing[s := None]).Exact()
  {
    var b0 := h.handing[s].value;
    var h' := h.(starved := h.starved[b0 := false], handing := h.handing[s := None]);
    forall b: Sid | h.BeingNotified(b) && b != b0 ensures h'.BeingNotified(b) {
      var r: Sid :| r < |h.handing| && h.handing[r] == Option.Some(b);
      assert h'.handing[r] == Option.Some(b);
    }
  }

  // ---------------------------------------------------------------- every step keeps the invariant

  lemma PutStep(w: World, s: Sid, x: Sched, w': World, p: Places, h: Hunger)
    requires Inv(w) && s < |w.scheds| && SchedInv(x) && w'.scheds == w.scheds[s := x]
    requires w'.pool.yetToCreate >= 0 && w'.pool.allocCount == w.pool.allocCount - w.scheds[s].Lent() + x.Lent()
    requires p == Places(PlacesOf(w).held[s := HeldBy(x)], PlacesOf(w).transit[s := TransitOf(x)],
                         w'.pool.idle, w'.owner)
    requires h == Hunger(HungerOf(w).starved[s := x.threads.starved], HungerOf(w).registering[s := x.pc.Registering?],
                         HungerOf(w).handing[s := HandingOf(x)], w'.pool.starving)
    requires p.Exact() && h.Exact()
    ensures Inv(w')
  {
    hide SchedInv, Places.Exact, Hunger.Exact;
    SumAt(w.scheds, s, x);
    PlacesAt(w, s, x, w');
    HungerAt(w, s, x, w');
  }

  /** A step of one scheduler that involves neither the pool nor any thread's ownership. */
  lemma LocalStep(w: World, s: Sid, x: Sched)
    requires Inv(w) && s < |w.scheds| && SchedInv(x)
    requires x.Lent() == w.scheds[s].Lent() && HeldBy(x) == HeldBy(w.scheds[s])
    requires TransitOf(x) == TransitOf(w.scheds[s]) && HandingOf(x) == HandingOf(w.scheds[s])
    requires x.threads.starved == w.scheds[s].threads.starved && x.pc.Registering? == w.scheds[s].pc.Registering?
    ensures Inv(Put(w, s, x))
  {
    hide SchedInv, Places.Exact, Hunger.Exact;
    var p, h := PlacesOf(w), HungerOf(w);
    assert p.held[s := HeldBy(x)] == p.held && p.transit[s := TransitOf(x)] == p.transit;
    assert h.starved[s := x.threads.starved] == h.starved && h.registering[s := x.pc.Registering?] == h.registering;
    assert h.handing[s := HandingOf(x)] == h.handing;
    PutStep(w, s, x, Put(w, s, x), p, h);
  }

  lemma RegisteringIdle(x: Sched)
    requires SchedInv(x) && x.pc.Registering?
    ensures x.threads.NoneIdle()
  {
  }

  lemma LentNonNegative(x: Sched)
    requires SchedInv(x)
    ensures x.Lent() >= 0 && (x.pc.Giving? ==> x.Lent() > 0)
  {
  }

  lemma GoIdleHeld(x: Sched, i: nat)
    requires SchedInv(x) && x.pc.Free? && i < |x.threads.running|
    ensures var t, x' := x.threads.running[i], GoIdle(x, i);
            && t in x.Held() && x'.Lent() == x.Lent() && x'.threads.starved == x.threads.starved && x'.pc.Quiet()
            && forall u :: u in x'.Held() <==>
                 u in x.Held() && (x.threads.fromShared <= 0 && x.aggressive ==> u != t)
  {
    hide Tallied, HandsOk, Backlog, NobodyForgotten;
    HeldPrefix(x);
    SwapRemoveKeeps(x.threads.running, i);
  }

  lemma WakeStep(w: World, s: Sid)
    requires Inv(w) && s < |w.scheds| && w.scheds[s].pc.Allocating? && w.scheds[s].threads.suspendedCount > 0
    ensures var x := w.scheds[s];
            |x.threads.suspended| > 0 && Inv(Put(w, s, Continue(x.(threads := x.threads.WakeSuspended()), x.pc.k, true)))
  {
    hide SchedInv, Places.Exact, Hunger.Exact;
    var x := w.scheds[s];
    WakeKeeps(x);
    var x' := Continue(x.(threads := x.threads.WakeSuspended()), x.pc.k, true);
    LocalStep(w, s, x');
  }

  lemma AllocateKeeps(w: World, s: Sid, anew: Tid)
    requires Inv(w) && s < |w.scheds| && w.scheds[s].pc.Allocating? && Allocate(w, s, anew).Some?
    ensures Inv(Allocate(w, s, anew).value)
  {
    hide Tallied, HandsOk, Backlog, NobodyForgotten, NoDup, Places.Exact, Hunger.Exact;
    var x, w' := w.scheds[s], Allocate(w, s, anew).value;
    var th, k := x.threads, x.pc.k;
    if th.suspendedCount > 0 {
      WakeStep(w, s);
    } else if th.yetToCreate > 0 {
      JoinStep(w, s, anew, th.StartPrivate(anew), w');
    } else if th.fromShared < th.maxFromShared && !th.starved && !w.pool.Exhausted() {
      JoinStep(w, s, w.pool.Offer(anew), th.TakeShared(w.pool.Offer(anew)), w');
    } else if th.fromShared < th.maxFromShared && !th.starved {
      StarveStep(w, s);
    } else {
      NoThreadKeeps(x);
      assert Continue(x, k, false).Held() == x.Held();
      LocalStep(w, s, Continue(x, k, false));
    }
  }

  lemma StarveStep(w: World, s: Sid)
    requires Inv(w) && s < |w.scheds| && w.scheds[s].pc.Allocating? && w.scheds[s].threads.NoneIdle()
    requires w.scheds[s].threads.fromShared < w.scheds[s].threads.maxFromShared && !w.scheds[s].threads.starved
    ensures var x := w.scheds[s];
            Inv(Put(w, s, x.(threads := x.threads.(starved := true), pc := Registering(x.pc.k))))
  {
    hide SchedInv, Places.Exact, Hunger.Exact;
    var x := w.scheds[s];
    var x' := x.(threads := x.threads.(starved := true), pc := Registering(x.pc.k));
    StarveKeeps(x);
    assert x'.Held() == x.Held();
    var p, h := PlacesOf(w), HungerOf(w);
    assert p.held[s := HeldBy(x')] == p.held && p.transit[s := TransitOf(x')] == p.transit;
    assert h.handing[s := HandingOf(x')] == h.handing;
    BeginHunger(h, s);
    PutStep(w, s, x', Put(w, s, x'), p, h.(starved := h.starved[s := true], registering := h.registering[s := true]));
  }

  lemma NotHeld(w: World, s: Sid, t: Tid)
    requires PlacesOf(w).Exact() && s < |w.scheds| && (t !in w.owner || t in w.pool.idle)
    ensures t !in w.scheds[s].Held()
  {
    assert PlacesOf(w).held[s] == HeldBy(w.scheds[s]);
  }

  lemma JoinStep(w: World, s: Sid, t: Tid, th: Threads, w': World)
    requires Inv(w) && s < |w.scheds| && w.scheds[s].pc.Allocating? && w.scheds[s].threads.suspendedCount == 0
    requires || (w.scheds[s].threads.yetToCreate > 0 && th == w.scheds[s].threads.StartPrivate(t)
                 && t !in w.owner && w'.pool == w.pool)
             || (w.scheds[s].threads.NoneIdle() && w.scheds[s].threads.fromShared < w.scheds[s].threads.maxFromShared
                 && th == w.scheds[s].threads.TakeShared(t) && !w.pool.Exhausted() && t == w.pool.Offer(t)
                 && (|w.pool.idle| == 0 ==> t !in w.owner) && w'.pool == w.pool.Lend())
    requires w'.scheds == w.scheds[s := Continue(w.scheds[s].(threads := th), w.scheds[s].pc.k, true)]
    requires w'.owner == w.owner[t := Option.Some(s)]
    ensures Inv(w')
  {
    hide SchedInv, Places.Exact, Hunger.Exact;
    var x := w.scheds[s];
    var x' := Continue(x.(threads := th), x.pc.k, true);
    var p, h := PlacesOf(w), HungerOf(w);
    NotHeld(w, s, t);
    JoinKeeps(x, t, th);
    assert HeldBy(x') == p.held[s] + {t} && p.transit[s := TransitOf(x')] == p.transit;
    assert h.handing[s := HandingOf(x')] == h.handing && h.registering[s := x'.pc.Registering?] == h.registering;
    assert h.starved[s := x'.threads.starved] == h.starved;
    var p' := p.(held := p.held[s := p.held[s] + {t}], idle := w'.pool.idle, owner := w'.owner);
    if w'.pool.idle == w.pool.idle {
      CreatePlaces(p, s, t);
    } else {
      assert w.pool.idle == w'.pool.idle + [t];
      BorrowPlaces(p, s, t, w'.pool.idle);
    }
    PutStep(w, s, x', w', p', h);
  }

  lemma RegisterKeeps(w: World, s: Sid)
    requires Inv(w) && s < |w.scheds| && w.scheds[s].pc.Registering?
    ensures Inv(Put(w, s, Continue(w.scheds[s], w.scheds[s].pc.k, false)).(pool := w.pool.AddStarving(s)))
  {
    hide SchedInv, Places.Exact, Hunger.Exact;
    var x := w.scheds[s];
    var x' := Continue(x, x.pc.k, false);
    var w' := Put(w, s, x').(pool := w.pool.AddStarving(s));
    RegisteringIdle(x);
    NoThreadKeeps(x);
    assert x'.Held() == x.Held();
    var p, h := PlacesOf(w), HungerOf(w);
    assert p.held[s := HeldBy(x')] == p.held && p.transit[s := TransitOf(x')] == p.transit;
    assert h.handing[s := HandingOf(x')] == h.handing && h.starved[s := x'.threads.starved] == h.starved;
    QueueHunger(h, s);
    PutStep(w, s, x', w', p, h.(registering := h.registering[s := false], queued := h.queued + [s]));
  }

  lemma AssignKeeps(w: World, s: Sid, i: nat)
    requires Inv(w) && s < |w.scheds| && Assign(w, s, i).Some?
    ensures Inv(Assign(w, s, i).value)
  {
    hide Tallied, HandsOk, Backlog, NobodyForgotten, NoDup, Places.Exact, Hunger.Exact;
    var x, w' := w.scheds[s], Assign(w, s, i).value;
    var t := x.threads.running[i];
    if x.queue.jobs == [] || x.threads.stopCount != 0 {
      IdleStep(w, s, i);
    } else {
      TakeJobKeeps(x, t);
      assert TakeJob(x, t).Held() == x.Held();
      LocalStep(w, s, TakeJob(x, t));
    }
  }

  lemma IdleStep(w: World, s: Sid, i: nat)
    requires Inv(w) && s < |w.scheds| && Assign(w, s, i).Some?
    requires w.scheds[s].queue.jobs == [] || w.scheds[s].threads.stopCount != 0
    ensures Inv(Assign(w, s, i).value)
  {
    hide SchedInv, Places.Exact, Hunger.Exact;
    var x, w' := w.scheds[s], Assign(w, s, i).value;
    var t, x' := x.threads.running[i], GoIdle(x, i);
    GoIdleKeeps(x, i);
    GoIdleHeld(x, i);
    if x.threads.fromShared <= 0 && x.aggressive {
      assert HeldBy(x') == HeldBy(x) - {t};
      var p, h := PlacesOf(w), HungerOf(w);
      assert p.transit[s := TransitOf(x')] == p.transit;
      assert h.handing[s := HandingOf(x')] == h.handing && h.starved[s := x'.threads.starved] == h.starved;
      assert h.registering[s := x'.pc.Registering?] == h.registering;
      LeavePlaces(p, s, t);
      PutStep(w, s, x', w', p.(held := p.held[s := p.held[s] - {t}], owner := p.owner - {t}), h);
    } else {
      assert HeldBy(x') == HeldBy(x);
      LocalStep(w, s, x');
    }
  }

  lemma UnstarveStep(w: World, s: Sid)
    requires Inv(w) && s < |w.scheds| && w.scheds[s].pc.Unstarving?
    ensures Inv(Unstarve(w, s))
  {
    hide SchedInv, Places.Exact, Hunger.Exact;
    var x, w' := w.scheds[s], Unstarve(w, s);
    if w' != w {
      UnstarveKeeps(x);
      var t := x.pc.t;
      var x' := x.(threads := x.threads.(starved := false), pc := Giving(t));
      assert x.Held() == x'.Held() + [t];
      assert HeldBy(x') == HeldBy(x) - {t};
      var p, h := PlacesOf(w), HungerOf(w);
      DepartPlaces(p, s, t);
      assert h.handing[s := HandingOf(x')] == h.handing && h.registering[s := x'.pc.Registering?] == h.registering;
      var h' := h;
      if x.threads.starved {
        EndHunger(h, s);
        h' := h.(starved := h.starved[s := false], queued := Without(h.queued, s));
      } else {
        assert h.starved[s := x'.threads.starved] == h.starved;
      }
      PutStep(w, s, x', w', p.(held := p.held[s := p.held[s] - {t}], transit := p.transit[s := Option.Some(t)],
                               owner := p.owner[t := None]), h');
    }
  }

  /** A scheduler that returns a thread has been lent it. */
  lemma LentToGiver(w: World, s: Sid)
    requires Inv(w) && s < |w.scheds|
    ensures 0 <= w.scheds[s].Lent() <= w.pool.allocCount
    ensures w.scheds[s].pc.Giving? ==> w.pool.allocCount > 0
  {
    hide SchedInv, Places.Exact, Hunger.Exact;
    forall r: Sid | r < |w.scheds| ensures w.scheds[r].Lent() >= 0 {
      LentNonNegative(w.scheds[r]);
    }
    SumBounds(w.scheds, s);
    LentNonNegative(w.scheds[s]);
  }

  /** The pool is over its size, and the thread waits for its own end. */
  lemma EndingStep(w: World, s: Sid)
    requires Inv(w) && s < |w.scheds| && w.scheds[s].pc.Giving? && !w.pool.Keeps()
    ensures Inv(Give(w, s))
  {
    hide SchedInv, Places.Exact, Hunger.Exact;
    var x, w' := w.scheds[s], Give(w, s);
    var x' := w'.scheds[s];
    ReturnedKeeps(x, Ending(x.pc.t));
    assert x'.Held() == x.Held();
    var p, h := PlacesOf(w), HungerOf(w);
    assert p.held[s := HeldBy(x')] == p.held && p.transit[s := TransitOf(x')] == p.transit;
    assert h.handing[s := HandingOf(x')] == h.handing && h.registering[s := x'.pc.Registering?] == h.registering;
    assert h.starved[s := x'.threads.starved] == h.starved;
    PutStep(w, s, x', w', p, h);
  }

  lemma GiveStep(w: World, s: Sid)
    requires Inv(w) && s < |w.scheds| && w.scheds[s].pc.Giving?
    ensures Inv(Give(w, s))
  {
    if w.pool.Keeps() {
      ReturnStep(w, s);
    } else {
      EndingStep(w, s);
    }
  }

  lemma ReturnStep(w: World, s: Sid)
    requires Inv(w) && s < |w.scheds| && w.scheds[s].pc.Giving? && w.pool.Keeps()
    ensures Inv(Give(w, s))
  {
    hide SchedInv, Places.Exact, Hunger.Exact;
    var x, w' := w.scheds[s], Give(w, s);
    ReturnedKeeps(x, Notifying);
    GiveDoneKeeps(x);
    var x' := w'.scheds[s];
    assert x'.Held() == x.Held();
    var p, h := PlacesOf(w), HungerOf(w);
    ArrivePlaces(p, s);
    assert p.held[s := HeldBy(x')] == p.held;
    assert h.handing[s := HandingOf(x')] == h.handing && h.registering[s := x'.pc.Registering?] == h.registering;
    assert h.starved[s := x'.threads.starved] == h.starved;
    PutStep(w, s, x', w', p.(transit := p.transit[s := None], idle := p.idle + [x.pc.t]), h);
  }

  lemma SelectStep(w: World, s: Sid)
    requires Inv(w) && s < |w.scheds| && w.scheds[s].pc.Notifying?
    ensures Inv(Select(w, s))
  {
    hide SchedInv, Places.Exact, Hunger.Exact;
    var x, w' := w.scheds[s], Select(w, s);
    var x' := w'.scheds[s];
    GiveDoneKeeps(x);
    assert GiveDone(x).Held() == x.Held();
    var p, h := PlacesOf(w), HungerOf(w);
    if w.pool.HasStarving() {
      var b := w.pool.starving[0];
      ReturnedKeeps(x, Handing(b));
      assert x'.Held() == x.Held();
      assert p.held[s := HeldBy(x')] == p.held && p.transit[s := TransitOf(x')] == p.transit;
      assert h.starved[s := x'.threads.starved] == h.starved && h.registering[s := x'.pc.Registering?] == h.registering;
      SelectHunger(h, s);
      PutStep(w, s, x', w', p, h.(handing := h.handing[s := Option.Some(b)], queued := h.queued[1..]));
    } else {
      LocalStep(w, s, x');
    }
  }

  /** What the two replacements of a Serve step do to the places and to the starving list. */
  lemma ServeViews(w: World, s: Sid, x: Sched, b: Sid, y: Sched, w': World)
    requires s < |w.scheds| && b < |w.scheds| && s != b && w'.pool == w.pool && w'.owner == w.owner
    requires w'.scheds == w.scheds[s := x][b := y]
    requires x.Held() == w.scheds[s].Held() && y.Held() == w.scheds[b].Held()
    requires w.scheds[s].pc == Handing(b) && x.pc.Quiet() && w.scheds[b].pc.Quiet() && y.pc.Quiet()
    requires x.threads == w.scheds[s].threads && !y.threads.starved
    ensures PlacesOf(w') == PlacesOf(w)
    ensures var h := HungerOf(w);
            HungerOf(w') == h.(starved := h.starved[b := false], handing := h.handing[s := None])
  {
    var w1 := Put(w, s, x);
    PlacesAt(w, s, x, w1);
    PlacesAt(w1, b, y, w');
    HungerAt(w, s, x, w1);
    HungerAt(w1, b, y, w');
    assert PlacesOf(w') == PlacesOf(w);
    var h := HungerOf(w);
    assert HungerOf(w') == h.(starved := h.starved[b := false], handing := h.handing[s := None]);
  }

  lemma ServeStep(w: World, s: Sid)
    requires Inv(w) && s < |w.scheds| && w.scheds[s].pc.Handing? && Serve(w, s).Some?
    ensures Inv(Serve(w, s).value)
  {
    hide SchedInv, Places.Exact, Hunger.Exact;
    var b, w' := w.scheds[s].pc.to, Serve(w, s).value;
    var x, y := w.scheds[s], w.scheds[b];
    var x' := x.(pc := AwaitingService(b));
    var y' := Continue(y.(threads := y.threads.(starved := false)), Serving(s), true);
    ReturnedKeeps(x, AwaitingService(b));
    ServedKeeps(y, s);
    var w1 := Put(w, s, x');
    assert w'.scheds == w1.scheds[b := y'];
    SumAt(w.scheds, s, x');
    SumAt(w1.scheds, b, y');
    assert x'.Held() == x.Held() && y'.Held() == y.Held();
    ServeViews(w, s, x', b, y', w');
    ServeHunger(HungerOf(w), s);
  }

  lemma AllocNonNegative(w: World)
    requires Inv(w)
    ensures w.pool.allocCount >= 0
  {
    hide SchedInv, Places.Exact, Hunger.Exact;
    forall r: Sid | r < |w.scheds| ensures w.scheds[r].Lent() >= 0 {
      LentNonNegative(w.scheds[r]);
    }
    SumNonNegative(w.scheds);
  }

  lemma SetCountStep(w: World, count: nat)
    requires Inv(w)
    ensures Inv(w.(pool := w.pool.SetCount(count),
                   owner := w.owner - (set t | t in w.pool.idle[w.pool.Surviving(count)..])))
  {
    hide Tallied, HandsOk, Backlog, NobodyForgotten, NoDup, Places.Exact, Hunger.Exact;
    var n := w.pool.Surviving(count);
    var w' := w.(pool := w.pool.SetCount(count), owner := w.owner - (set t | t in w.pool.idle[n..]));
    assert w.pool.allocCount >= 0 by { AllocNonNegative(w); }
    var p, p' := PlacesOf(w), PlacesOf(w');
    assert HungerOf(w') == HungerOf(w);
    assert p' == p.(idle := p.idle[..n], owner := w'.owner);
    DropPlaces(p, n);
  }

  /** The idle threads from position `n` on cease to exist. */
  lemma DropPlaces(p: Places, n: nat)
    requires p.Exact() && n <= |p.idle|
    ensures p.(idle := p.idle[..n], owner := p.owner - (set t | t in p.idle[n..])).Exact()
  {
    var p' := p.(idle := p.idle[..n], owner := p.owner - (set t | t in p.idle[n..]));
    DropSplit(p.idle, n);
    assert p'.Claimed() by { hide Places.Single, NoDup; }
    assert p'.Pooled() by {
      hide Places.Claimed, Places.Single, NoDup;
      assert forall u: Tid :: p.InTransit(u) ==> p'.InTransit(u);
    }
    assert p'.Single() by { hide Places.Pooled, Places.Claimed; }
  }

  lemma DropSplit(s: seq<Tid>, n: nat)
    requires NoDup(s) && n <= |s|
    ensures NoDup(s[..n])
    ensures forall t :: t in s <==> t in s[..n] || t in s[n..]
    ensures forall t :: t in s[..n] ==> t !in s[n..]
  {
    assert s == s[..n] + s[n..];
    forall t | t in s[..n] ensures t !in s[n..] {
      var i :| 0 <= i < n && s[i] == t;
      assert forall j :: 0 <= j < |s[n..]| ==> s[n..][j] == s[n + j];
    }
  }

  /** What the steps do to the documented bound of the pool: only a change of its size can break
      it, and does so unless it is a safe one. */
  lemma BalanceKept(w: World, a: Action)
    requires Inv(w) && w.pool.Balanced() && Next(w, a).Some?
    ensures Next(w, a).value.pool.Balanced() <==> (a.DoSetCount? ==> SafeToSet(w.pool, a.count))
    ensures a.DoGive? ==> w.pool.Keeps()
  {
    hide Inv, SchedInv;
    if a.DoGive? {
      LentToGiver(w, a.s);
    } else if a.DoSetCount? {
      SetCountExact(w.pool, a.count);
    }
  }

  lemma NextKeeps(w: World, a: Action)
    requires Inv(w) && Next(w, a).Some?
    ensures Inv(Next(w, a).value)
  {
    var s, x := a.s, w.scheds[a.s];
    match a
    case DoAllocate(_, anew) => AllocateKeeps(w, s, anew);
    case DoRegister(_) => RegisterKeeps(w, s);
    case DoAssign(_, i) => AssignKeeps(w, s, i);
    case DoUnstarve(_) => UnstarveStep(w, s);
    case DoGive(_) => GiveStep(w, s);
    case DoSelect(_) => SelectStep(w, s);
    case DoServe(_) => ServeStep(w, s);
    case DoSetCount(_, count) => SetCountStep(w, count);
    case _ => PlainKeeps(w, a);
  }

  predicate Plain(a: Action) {
    || a.DoAnnounce? || a.DoEnqueue? || a.DoReturn? || a.DoFinish? || a.DoStop?
    || a.DoResume? || a.DoRemove? || a.DoWait? || a.DoWake? || a.DoTimeout?
  }

  /** The steps that concern one scheduler alone. */
  lemma PlainKeeps(w: World, a: Action)
    requires Inv(w) && Next(w, a).Some? && Plain(a)
    ensures Inv(Next(w, a).value)
  {
    hide SchedInv, Places.Exact, Hunger.Exact;
    PlainSchedKeeps(w, a);
    PlainViews(w, a);
    LocalStep(w, a.s, Next(w, a).value.scheds[a.s]);
  }

  lemma PlainSchedKeeps(w: World, a: Action)
    requires Inv(w) && Next(w, a).Some? && Plain(a)
    ensures SchedInv(Next(w, a).value.scheds[a.s])
  {
    hide SchedInv, Places.Exact, Hunger.Exact;
    var x := w.scheds[a.s];
    match a
    case DoAnnounce(_, job) => AnnounceKeeps(x, job);
    case DoEnqueue(_, job) => EnqueueKeeps(x, job);
    case DoReturn(_) => ReturnedKeeps(x, Notifying);
    case DoFinish(_, i) => FinishJobKeeps(x, i);
    case DoStop(_) => StopKeeps(x);
    case DoResume(_) => ResumeKeeps(x);
    case DoRemove(_, watermark, oldest) => RemoveJobsKeeps(x, watermark, oldest);
    case DoWait(_) => WaitTurnKeeps(x);
    case DoWake(_) => WakeUpKeeps(x);
    case DoTimeout(_) => WakeUpKeeps(x);
  }

  lemma PlainViews(w: World, a: Action)
    requires Next(w, a).Some? && Plain(a)
    ensures var w', x := Next(w, a).value, w.scheds[a.s];
            && |w'.scheds| == |w.scheds| && w' == Put(w, a.s, w'.scheds[a.s])
            && var x' := w'.scheds[a.s];
               x'.Held() == x.Held() && x'.Lent() == x.Lent() && TransitOf(x') == TransitOf(x)
               && HandingOf(x') == HandingOf(x) && x'.threads.starved == x.threads.starved
               && x'.pc.Registering? == x.pc.Registering?
  {
    hide TakeOff, World.PoolFree, Allocate, Assign;
    var x' := Next(w, a).value.scheds[a.s];
    assert x'.Held() == w.scheds[a.s].Held();
  }

  lemma {:induction false} ExecKeeps(w: World, run: seq<Action>)
    requires Inv(w) && Exec(w, run).Some?
    ensures Inv(Exec(w, run).value)
    decreases |run|
  {
    if |run| > 0 {
      NextKeeps(w, run[0]);
      ExecKeeps(Next(w, run[0]).value, run[1..]);
    }
  }

  lemma InitKeeps(w: World)
    requires Init(w)
    ensures Inv(w)
  {
    forall s: Sid | s < |w.scheds| ensures SchedInv(w.scheds[s]) && w.scheds[s].Lent() == 0 {
      var x := w.scheds[s];
      NewSchedInv(x.threadCount, x.threads.maxFromShared, x.aggressive, x.queue.fifo);
    }
    SumZero(w.scheds);
    InitPlaces(w);
    InitHunger(w);
  }

  lemma InitPlaces(w: World)
    requires Init(w)
    ensures PlacesOf(w).Exact()
  {
    var p := PlacesOf(w);
    forall s: Sid | s < |w.scheds| ensures p.held[s] == {} && p.transit[s].None? {
      assert w.scheds[s].Held() == [];
    }
  }

  lemma InitHunger(w: World)
    requires Init(w)
    ensures HungerOf(w).Exact()
  {
    var h := HungerOf(w);
    assert forall s: Sid :: s < |w.scheds| ==> !h.starved[s] && !h.registering[s] && h.handing[s].None?;
  }

  lemma {:induction false} SumZero(scheds: seq<Sched>)
    requires forall s: Sid :: s < |scheds| ==> scheds[s].Lent() == 0
    ensures SumLent(scheds) == 0
  {
    if |scheds| > 0 {
      SumZero(scheds[1..]);
    }
  }
}
