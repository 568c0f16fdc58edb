/** Priorities of kern/sched.c over whole runs: each slice that a thread used up costs it one priority. */
module SchedSlices {
  import opened Sched
  import opened SchedRuns

  /** The thread waits at priority `q`; threads that were just queued have priority 10. */
  predicate WaitsAt(c: Cpu, t: Tid, q: nat) {
    || (t in c.justQueued && q == 10)
    || (q < |c.active| && t in c.active[q]) || (q < |c.expired| && t in c.expired[q])
  }

  /** The next time the thread is dispatched, its priority is `q`: it waits there, has not arrived yet, or runs one
      priority above. */
  predicate Due(c: Cpu, t: Tid, q: nat) {
    || WaitsAt(c, t, q)
    || (|c.procs| <= t && q == 10)
    || (t == c.current && q == if c.prio == 0 then 0 else c.prio - 1)
  }

  /** In how many lists of a runqueue a thread is, at least. */
  lemma {:induction false} BelowTwo(rq: RunQueue, k: nat, p: nat, r: nat, t: Tid)
    requires p < r < k <= |rq|
    ensures Occurs(rq[p], t) + Occurs(rq[r], t) <= Below(rq, k, t)
  {
    if r < k - 1 {
      BelowTwo(rq, k - 1, p, r, t);
    } else {
      BelowAt(rq, k - 1, p, t);
    }
  }

  lemma InList(rq: RunQueue, p: nat, t: Tid)
    requires p < |rq| && t in rq[p]
    ensures 0 < Occurs(rq[p], t) <= In(rq, t)
  {
    BelowAt(rq, |rq|, p, t);
  }

  lemma OneList(rq: RunQueue, p: nat, r: nat, t: Tid)
    requires p < |rq| && r < |rq| && t in rq[p] && t in rq[r] && In(rq, t) <= 1
    ensures p == r
  {
    if p < r {
      BelowTwo(rq, |rq|, p, r, t);
    } else if r < p {
      BelowTwo(rq, |rq|, r, p, t);
    }
  }

  /** A thread that is in one place waits at one priority. */
  lemma WaitsOnce(c: Cpu, t: Tid, q: nat, r: nat)
    requires Places(c, t) <= 1 && WaitsAt(c, t, q) && WaitsAt(c, t, r)
    ensures q == r && t != c.current
  {
    hide In;
    forall p: nat | p < |c.active| && t in c.active[p]
      ensures 0 < In(c.active, t)
    {
      InList(c.active, p, t);
    }
    forall p: nat | p < |c.expired| && t in c.expired[p]
      ensures 0 < In(c.expired, t)
    {
      InList(c.expired, p, t);
    }
    if q < |c.active| && r < |c.active| && t in c.active[q] && t in c.active[r] {
      OneList(c.active, q, r, t);
    }
    if q < |c.expired| && r < |c.expired| && t in c.expired[q] && t in c.expired[r] {
      OneList(c.expired, q, r, t);
    }
  }

  /** Swapping the runqueues changes no priority. */
  lemma SettledWaits(c: Cpu, t: Tid, q: nat)
    requires |c.active| == |c.expired| == NR_PRIOS && WaitsAt(c, t, q)
    ensures WaitsAt(Settled(c), t, q)
  {
  }

  /** A thread is dispatched at the priority at which it waits; the others go on waiting at theirs. */
  lemma DispatchWaits(c: Cpu, t: Tid, q: nat)
    requires |c.active| == |c.expired| == NR_PRIOS && Places(c, t) <= 1 && WaitsAt(c, t, q)
    ensures var (pick, d) := Dispatch(c);
            if pick.Some? && pick.value.tid == t then pick.value.prio == q else WaitsAt(d, t, q)
  {
    if FromFresh(c) {
      var j := c.justQueued;
      assert j == [j[0]] + j[1..];
      if t == j[0] {
        WaitsOnce(c, t, q, 10);
      }
    } else {
      SettledWaits(c, t, q);
      SettledPlaces(c, t);
      PopWaits(Settled(c), t, q);
    }
  }

  lemma PopWaits(s: Cpu, t: Tid, q: nat)
    requires |s.active| == |s.expired| == NR_PRIOS && Places(s, t) <= 1 && WaitsAt(s, t, q) && !Empty(s.active)
    ensures var h := Highest(s.active);
            if s.active[h][0] == t then h == q else WaitsAt(s.(turn := true, active := Pop(s.active, h)), t, q)
  {
    var h := Highest(s.active);
    var list := s.active[h];
    assert list == [list[0]] + list[1..];
    if list[0] == t {
      WaitsOnce(s, t, q, h);
    }
  }

  /** The thread whose slice ended is the last one of the expired list one priority below, or of that of priority 0; the
      other lists are as dispatching left them. */
  lemma SliceEnds(c: Cpu)
    requires Inv(c) && Picked(c, Tick_).Some?
    ensures var d, n, q := Dispatch(Charged(c)).1, Tick(c), if c.prio == 0 then 0 else c.prio - 1;
            && |n.expired| == |d.expired| == 20 && n.expired[q] == d.expired[q] + [c.current]
            && (forall p :: 0 <= p < 20 && p != q ==> n.expired[p] == d.expired[p])
            && n.active == d.active && n.justQueued == d.justQueued
            && n.current == Picked(c, Tick_).value.tid && n.prio == Picked(c, Tick_).value.prio
  {
    ChargedInv(c);
    DispatchFacts(Charged(c));
    PickFacts(Charged(c), Picked(c, Tick_).value);
  }

  lemma ChargedWaits(c: Cpu, t: Tid, q: nat)
    requires Inv(c)
    ensures WaitsAt(Charged(c), t, q) == WaitsAt(c, t, q) && Places(Charged(c), t) == Places(c, t) <= 1
    ensures |Charged(c).active| == |Charged(c).expired| == 20
  {
  }

  lemma TickDue(c: Cpu, t: Tid, q: nat)
    requires Inv(c) && Due(c, t, q)
    ensures var n, p := Tick(c), Picked(c, Tick_);
            if p.Some? && p.value.tid == t then p.value.prio == q && Due(n, t, if q == 0 then 0 else q - 1)
            else Due(n, t, q)
  {
    TickWaits(c, t, q);
    TickOthers(c);
    hide Inv, Tick, Picked, WaitsAt;
  }

  /** What a tick does to a thread that waits. */
  lemma TickWaits(c: Cpu, t: Tid, q: nat)
    requires Inv(c)
    ensures var n, p := Tick(c), Picked(c, Tick_);
            WaitsAt(c, t, q) ==> if p.Some? && p.value.tid == t then p.value.prio == q else WaitsAt(n, t, q)
  {
    ChargedWaits(c, t, q);
    if WaitsAt(c, t, q) {
      DispatchWaits(Charged(c), t, q);
      if Picked(c, Tick_).Some? {
        SliceEnds(c);
        hide Inv, Tick, Dispatch, Places;
      } else {
        NoSlice(c);
        hide Inv, Tick, Dispatch, Places;
      }
    }
  }

  /** A tick without a dispatch leaves the thread on the CPU, its priority, and who waits where. */
  lemma NoSlice(c: Cpu)
    requires Inv(c) && Picked(c, Tick_).None?
    ensures var d, n := Dispatch(Charged(c)).1, Tick(c);
            && n.current == c.current && n.prio == c.prio && |n.procs| == |c.procs|
            && ((n.active == d.active && n.expired == d.expired && n.justQueued == d.justQueued) ||
                (n.active == c.active && n.expired == c.expired && n.justQueued == c.justQueued))
  {
    ChargedInv(c);
    DispatchFacts(Charged(c));
  }

  predicate EndsIn(list: seq<Tid>, t: Tid) { list != [] && list[|list| - 1] == t }

  /** What a tick does to the thread on the CPU and to one that has not arrived. */
  lemma TickOthers(c: Cpu)
    requires Inv(c)
    ensures var n, p, q := Tick(c), Picked(c, Tick_), if c.prio == 0 then 0 else c.prio - 1;
            && |n.procs| == |c.procs|
            && (p.Some? ==> n.current == p.value.tid != c.current && p.value.tid < |c.procs| && n.prio == p.value.prio)
            && (if p.Some? then q < |n.expired| && EndsIn(n.expired[q], c.current) && WaitsAt(n, c.current, q)
                else n.current == c.current && n.prio == c.prio)
  {
    if Picked(c, Tick_).Some? {
      SliceEnds(c);
      ChargedInv(c);
      PickFacts(Charged(c), Picked(c, Tick_).value);
      DispatchFacts(Charged(c));
      var n, q := Tick(c), if c.prio == 0 then 0 else c.prio - 1;
      assert c.current in n.expired[q];
    } else {
      NoSlice(c);
    }
  }

  lemma NextDue(c: Cpu, e: Event, t: Tid, q: nat)
    requires Inv(c) && Due(c, t, q)
    ensures var n, p := Next(c, e), Picked(c, e);
            if p.Some? && p.value.tid == t then p.value.prio == q && Due(n, t, if q == 0 then 0 else q - 1)
            else Due(n, t, q)
  {
    if e == Tick_ {
      TickDue(c, t, q);
    } else {
      assert c.justQueued <= Enqueue(c).justQueued && |c.procs| in Enqueue(c).justQueued;
    }
  }

  /** A tick dispatches exactly if it is the second one of the slice, or a later one, and there is another thread. */
  lemma SliceLength(c: Cpu)
    requires Inv(c)
    ensures Picked(c, Tick_).Some? <==> 2 <= c.procs[c.current].runtime + 1 && 1 < |c.procs|
  {
    var d := Charged(c);
    ChargedInv(c);
    if Dispatch(d).0.Some? {
      PickFacts(d, Dispatch(d).0.value);
    } else if 1 < |c.procs| {
      var t: Tid := if c.current == 0 then 1 else 0;
      assert Places(d, t) == 1;
      DispatchPlaces(d, t);
      NothingLeft(d, t);
    }
  }

  /** Where nothing is dispatched, nothing waits. */
  lemma NothingLeft(c: Cpu, t: Tid)
    requires |c.active| == |c.expired| == NR_PRIOS && Dispatch(c).0.None? && t != c.current
    ensures Places(Dispatch(c).1, t) == 0
  {
    var s := Settled(c);
    BelowEmpty(s.active, NR_PRIOS, t);
    BelowEmpty(s.expired, NR_PRIOS, t);
    OccursConcat([], [], t);
  }

  /** In how many ticks of a run a thread is on the CPU with priority `q`. */
  function TicksAt(c: Cpu, events: seq<Event>, t: Tid, q: nat): nat
    requires Inv(c)
    decreases |events|
  {
    if events == [] then 0
    else
      NextInv(c, events[0]);
      TicksAt(Next(c, events[0]), events[1..], t, q) +
      if events[0] == Tick_ && c.current == t && c.prio == q then 1 else 0
  }

  /** A tick is charged to the thread on the CPU, at its priority, and to nothing else. */
  lemma NextCharges(c: Cpu, e: Event, t: Tid, q: nat)
    requires Inv(c) && t < |c.procs| && q < 20
    ensures var n := Next(c, e);
            && t < |n.procs| && |n.procs[t].prioMap| == 20 == |c.procs[t].prioMap|
            && n.procs[t].prioMap[q] ==
               c.procs[t].prioMap[q] + (if e == Tick_ && c.current == t && c.prio == q then 1 else 0)
            && n.procs[t].overall == c.procs[t].overall + (if e == Tick_ && c.current == t then 1 else 0)
  {
    hide OnePlace, Dispatch;
    ChargedInv(c);
    DispatchFacts(Charged(c));
    if e == Tick_ && Picked(c, Tick_).Some? {
      PickFacts(Charged(c), Picked(c, Tick_).value);
    }
  }

  /** Over every run the statistics of a thread are the ticks in which it ran at each priority. */
  lemma {:induction false} StatisticsExact(c: Cpu, events: seq<Event>, t: Tid, q: nat)
    requires Inv(c) && t < |c.procs| && q < 20
    ensures var n := Run(c, events);
            && t < |n.procs| && |n.procs[t].prioMap| == 20 == |c.procs[t].prioMap|
            && n.procs[t].prioMap[q] == c.procs[t].prioMap[q] + TicksAt(c, events, t, q)
    decreases |events|
  {
    if events != [] {
      NextInv(c, events[0]);
      NextCharges(c, events[0], t, q);
      hide Next;
      StatisticsExact(Next(c, events[0]), events[1..], t, q);
    }
  }

  /** The priorities at which a thread is dispatched, in order. */
  function Slices(picks: seq<Pick>, t: Tid): seq<nat> {
    if picks == [] then []
    else (if picks[0].tid == t then [picks[0].prio] else []) + Slices(picks[1..], t)
  }

  lemma SlicesStep(c: Cpu, events: seq<Event>, t: Tid)
    requires Inv(c) && events != []
    ensures Inv(Next(c, events[0]))
    ensures var p, rest := Picked(c, events[0]), Slices(Picks(Next(c, events[0]), events[1..]), t);
            Slices(Picks(c, events), t) == if p.Some? && p.value.tid == t then [p.value.prio] + rest else rest
  {
    NextInv(c, events[0]);
    hide Inv, Next, Picked;
    var p, rest := Picked(c, events[0]), Picks(Next(c, events[0]), events[1..]);
    if p.Some? {
      assert ([p.value] + rest)[1..] == rest;
    }
    assert [] + Slices(rest, t) == Slices(rest, t);
  }

  /** Over every run, each dispatch of a thread is one priority below the one before, down to 0. */
  lemma {:induction false} PrioritiesFade(c: Cpu, events: seq<Event>, t: Tid, q: nat, j: nat)
    requires Inv(c) && Due(c, t, q) && j < |Slices(Picks(c, events), t)|
    ensures Slices(Picks(c, events), t)[j] == if j < q then q - j else 0
    decreases |events|
  {
    hide Inv, Next, Picked, Due;
    SlicesStep(c, events, t);
    NextDue(c, events[0], t, q);
    var n, p := Next(c, events[0]), Picked(c, events[0]);
    if p.None? || p.value.tid != t {
      PrioritiesFade(n, events[1..], t, q, j);
    } else if j > 0 {
      PrioritiesFade(n, events[1..], t, if q == 0 then 0 else q - 1, j - 1);
    }
  }

  /** A thread that is just queued or arrives in the run is first dispatched at priority 10, and from its eleventh slice
      on at priority 0. */
  lemma NewcomerFades(c: Cpu, events: seq<Event>, t: Tid, j: nat)
    requires Inv(c) && (t in c.justQueued || |c.procs| <= t) && j < |Slices(Picks(c, events), t)|
    ensures Slices(Picks(c, events), t)[j] == if j < 10 then 10 - j else 0
  {
    PrioritiesFade(c, events, t, 10, j);
  }

  /** The thread that boots starts at priority 10: the next time it is dispatched it is at 9. */
  lemma BootFades(events: seq<Event>, j: nat)
    requires (BootInv(); j < |Slices(Picks(Boot(), events), 0)|)
    ensures (BootInv(); Slices(Picks(Boot(), events), 0)[j] == if j < 9 then 9 - j else 0)
  {
    BootInv();
    PrioritiesFade(Boot(), events, 0, 9, j);
  }

  /** Nothing was dispatched since the CPU booted. */
  predicate Booting(c: Cpu) {
    && c.turn && (forall p :: 0 <= p < |c.active| ==> c.active[p] == [])
    && (forall p :: 0 <= p < |c.expired| ==> c.expired[p] == [])
    && |c.procs| == |c.justQueued| + 1 && (c.justQueued != [] ==> c.justQueued[0] == 1)
  }

  lemma BootingNext(c: Cpu, e: Event)
    requires Inv(c) && Booting(c)
    ensures var n, p := Next(c, e), Picked(c, e);
            if p.None? then Booting(n) else p.value == Pick(1, 10, true)
  {
    hide OnePlace;
    ChargedInv(c);
    DispatchFacts(Charged(c));
    assert Empty(c.active) && Empty(c.expired);
  }

  /** The first thread that a CPU dispatches after it booted is the first one that was queued, at priority 10. */
  lemma {:induction false} FirstDispatch(c: Cpu, events: seq<Event>)
    requires Inv(c) && Booting(c) && Picks(c, events) != []
    ensures Picks(c, events)[0] == Pick(1, 10, true)
    decreases |events|
  {
    hide Inv, Next, Picked, Booting;
    NextInv(c, events[0]);
    BootingNext(c, events[0]);
    if Picked(c, events[0]).None? {
      FirstDispatch(Next(c, events[0]), events[1..]);
    }
  }

  lemma BootDispatch(events: seq<Event>)
    requires (BootInv(); Picks(Boot(), events) != [])
    ensures (BootInv(); Picks(Boot(), events)[0] == Pick(1, 10, true))
  {
    BootInv();
    FirstDispatch(Boot(), events);
  }

  /** Every thread of a reachable state is due at one priority, at most 10. */
  lemma EveryDue(c: Cpu, t: Tid) returns (q: nat)
    requires Inv(c)
    ensures q <= 10 && Due(c, t, q) && forall r: nat :: Due(c, t, r) ==> r == q
  {
    assert Places(c, t) == if t < |c.procs| then 1 else 0;
    if t == c.current {
      q := if c.prio == 0 then 0 else c.prio - 1;
    } else if |c.procs| <= t || 0 < Occurs(c.justQueued, t) {
      q := 10;
    } else if 0 < In(c.active, t) {
      q := FindList(c.active, |c.active|, t);
    } else {
      q := FindList(c.expired, |c.expired|, t);
    }
    forall r: nat | Due(c, t, r)
      ensures r == q
    {
      OnlyPlace(c, t, q, r);
    }
  }

  lemma {:induction false} FindList(rq: RunQueue, k: nat, t: Tid) returns (p: nat)
    requires k <= |rq| && 0 < Below(rq, k, t)
    ensures p < k && t in rq[p]
  {
    if t in rq[k - 1] {
      p := k - 1;
    } else {
      p := FindList(rq, k - 1, t);
    }
  }

  lemma OnlyPlace(c: Cpu, t: Tid, q: nat, r: nat)
    requires Inv(c) && Due(c, t, q) && Due(c, t, r)
    ensures q == r
  {
    assert Places(c, t) == if t < |c.procs| then 1 else 0;
    hide Inv;
    if WaitsAt(c, t, q) {
      WaitsSomewhere(c, t, q);
    }
    if WaitsAt(c, t, r) {
      WaitsSomewhere(c, t, r);
    }
    if WaitsAt(c, t, q) && WaitsAt(c, t, r) {
      WaitsOnce(c, t, q, r);
    }
  }

  lemma WaitsSomewhere(c: Cpu, t: Tid, q: nat)
    requires WaitsAt(c, t, q) && Places(c, t) <= 1
    ensures t != c.current && 0 < Places(c, t)
  {
    WaitsOnce(c, t, q, q);
    hide In;
    if q < |c.active| && t in c.active[q] {
      InList(c.active, q, t);
    }
    if q < |c.expired| && t in c.expired[q] {
      InList(c.expired, q, t);
    }
  }
}
