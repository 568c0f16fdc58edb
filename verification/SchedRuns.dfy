/** Safety and fairness of the scheduler of kern/sched.c over every run of ticks and arrivals. */
module SchedRuns {
  import opened Options
  import opened Sched

  /** A timer tick, or sched_enqueue() of a new thread. */
  datatype Event = Tick_ | Arrival

  function Next(c: Cpu, e: Event): Cpu
    requires Inv(c)
  {
    match e {
      case Tick_ => Tick(c)
      case Arrival => Enqueue(c)
    }
  }

  lemma NextInv(c: Cpu, e: Event)
    requires Inv(c)
    ensures Inv(Next(c, e))
  {
    match e {
      case Tick_ => TickInv(c);
      case Arrival => EnqueueInv(c);
    }
  }

  /** Every run keeps the invariant. */
  function Run(c: Cpu, events: seq<Event>): (r: Cpu)
    requires Inv(c)
    ensures Inv(r)
    decreases |events|
  {
    if events == [] then c
    else
      NextInv(c, events[0]);
      Run(Next(c, events[0]), events[1..])
  }

  /** What sched_tick() dispatches, if anything. */
  function Picked(c: Cpu, e: Event): Option<Pick>
    requires Inv(c)
  {
    ChargedInv(c);
    if e == Tick_ && c.procs[c.current].runtime + 1 >= RR_INTERVAL then Dispatch(Charged(c)).0 else None
  }

  /** The dispatches of a run, in order. */
  function Picks(c: Cpu, events: seq<Event>): seq<Pick>
    requires Inv(c)
    decreases |events|
  {
    if events == [] then []
    else
      NextInv(c, events[0]);
      var rest := Picks(Next(c, events[0]), events[1..]);
      var p := Picked(c, events[0]);
      if p.None? then rest else [p.value] + rest
  }

  /** The number of threads in a runqueue. */
  function SizeBelow(rq: RunQueue, k: nat): nat
    requires k <= |rq|
  {
    if k == 0 then 0 else SizeBelow(rq, k - 1) + |rq[k - 1]|
  }

  function Size(rq: RunQueue): nat { SizeBelow(rq, |rq|) }

  lemma {:induction false} SizeUpdate(rq: RunQueue, k: nat, p: nat, list: seq<Tid>)
    requires k <= |rq| && p < |rq|
    ensures SizeBelow(rq[p := list], k) == SizeBelow(rq, k) + if p < k then |list| - |rq[p]| else 0
  {
    if k > 0 {
      SizeUpdate(rq, k - 1, p, list);
    }
  }

  lemma {:induction false} SizeZero(rq: RunQueue, k: nat, t: Tid)
    requires k <= |rq|
    ensures SizeBelow(rq, k) == 0 ==> Below(rq, k, t) == 0
    ensures (forall p :: 0 <= p < k ==> rq[p] == []) ==> SizeBelow(rq, k) == 0
  {
    if k > 0 {
      SizeZero(rq, k - 1, t);
    }
  }

  /** How many more dispatches the active runqueue can last. */
  function Patience(c: Cpu): nat {
    var n := Size(c.active);
    if n == 0 then 0 else 2 * n - if c.turn then 0 else 1
  }

  /** A thread in the active runqueue means no swap, and dispatching uses up patience. */
  lemma ActivePick(c: Cpu, t: Tid)
    requires |c.active| == |c.expired| == NR_PRIOS && 0 < In(c.active, t)
    ensures var (pick, d) := Dispatch(c);
            && pick.Some? && Patience(d) < Patience(c)
            && In(d.active, t) + (if !pick.value.newcomer && pick.value.tid == t then 1 else 0) == In(c.active, t)
  {
    SizeZero(c.active, NR_PRIOS, t);
    var h := Highest(c.active);
    assert !Empty(c.active);
    if !FromFresh(c) {
      PopIn(c.active, h, t);
      SizeUpdate(c.active, NR_PRIOS, h, c.active[h][1..]);
    }
  }

  /** An event that dispatches nothing leaves the queues alone, but for an arrival. */
  lemma Unpicked(c: Cpu, e: Event, t: Tid)
    requires Inv(c) && Picked(c, e).None? && (0 < In(c.active, t) || t in c.justQueued)
    ensures var d := Next(c, e);
            && d.active == c.active && d.turn == c.turn
            && d.justQueued == (if e == Arrival then c.justQueued + [|c.procs|] else c.justQueued)
            && d.current == c.current && d.current < |d.procs|
            && d.procs[d.current].runtime == c.procs[c.current].runtime + (if e == Tick_ then 1 else 0)
            && (e == Tick_ ==> c.procs[c.current].runtime == 0)
  {
    if e == Tick_ && c.procs[c.current].runtime + 1 >= RR_INTERVAL {
      Busy(Charged(c), t);
      assert false;
    }
  }

  /** With a thread waiting, some thread is dispatched. */
  lemma Busy(c: Cpu, t: Tid)
    requires |c.active| == |c.expired| == NR_PRIOS && (0 < In(c.active, t) || t in c.justQueued)
    ensures Dispatch(c).0.Some?
  {
    SizeZero(c.active, NR_PRIOS, t);
    if Empty(c.active) && !FromFresh(c) {
      AppendIn(c.expired, DEFAULT_PRIO, c.justQueued, t);
      OccursConcat(c.justQueued, [], t);
      SizeZero(Settled(c).active, NR_PRIOS, t);
    }
  }

  /** A dispatch: the queues are those that dispatching left, and the new thread starts a fresh slice. */
  lemma PickedNext(c: Cpu, e: Event)
    requires Inv(c) && Picked(c, e).Some?
    ensures var d, n := Dispatch(Charged(c)).1, Next(c, e);
            && e == Tick_ && n.active == d.active && n.turn == d.turn && n.justQueued == d.justQueued
            && n.current == Picked(c, e).value.tid < |n.procs| && n.procs[n.current].runtime == 0
            && n.prio == Picked(c, e).value.prio
  {
    ChargedInv(c);
    DispatchFacts(Charged(c));
    PickFacts(Charged(c), Picked(c, e).value);
  }

  function Ticks(events: seq<Event>): nat {
    if events == [] then 0 else Ticks(events[1..]) + if events[0] == Tick_ then 1 else 0
  }

  predicate DispatchedBy(picks: seq<Pick>, n: nat, t: Tid) {
    exists k :: 0 <= k < n && k < |picks| && picks[k].tid == t
  }

  /** A tick that was already charged to the current slice. */
  function Spent(c: Cpu): nat
    requires c.current < |c.procs|
  {
    if c.procs[c.current].runtime == 0 then 0 else 1
  }

  /** A thread in the active runqueue is dispatched before the patience of the runqueue is used up: within that many
      dispatches, and within RR_INTERVAL ticks for each of them. */
  lemma SomePatience(c: Cpu, t: Tid)
    requires Inv(c) && 0 < In(c.active, t)
    ensures 0 < Patience(c) && Spent(c) < RR_INTERVAL
  {
    ActivePick(c, t);
  }

  lemma {:induction false} ActiveBound(c: Cpu, events: seq<Event>, t: Tid)
    requires Inv(c) && 0 < In(c.active, t)
    requires |Picks(c, events)| >= Patience(c) || Ticks(events) + Spent(c) >= RR_INTERVAL * Patience(c)
    ensures DispatchedBy(Picks(c, events), Patience(c), t)
    decreases |events|
  {
    hide Inv, Next, Picked, In, Patience, Spent;
    SomePatience(c, t);
    if events != [] {
      ActiveStep(c, events[0], t);
      var n, rest := Next(c, events[0]), events[1..];
      NextInv(c, events[0]);
      var p := Picked(c, events[0]);
      if p.None? {
        ActiveBound(n, rest, t);
      } else if p.value.tid == t {
        assert Picks(c, events)[0].tid == t;
      } else {
        ActiveBound(n, rest, t);
        var k :| 0 <= k < Patience(n) && k < |Picks(n, rest)| && Picks(n, rest)[k].tid == t;
        assert Picks(c, events)[k + 1] == Picks(n, rest)[k];
      }
    }
  }

  lemma ActiveStep(c: Cpu, e: Event, t: Tid)
    requires Inv(c) && 0 < In(c.active, t)
    ensures var n, p := Next(c, e), Picked(c, e);
            && n.current < |n.procs|
            && (p.None? ==> In(n.active, t) == In(c.active, t) && Patience(n) == Patience(c))
            && (p.None? ==> Spent(n) + 0 == Spent(c) + (if e == Tick_ then 1 else 0))
            && (p.Some? ==>
                  Patience(n) < Patience(c) && e == Tick_ && Spent(n) == 0 &&
                  (p.value.tid != t ==> 0 < In(n.active, t)))
  {
    if Picked(c, e).None? {
      Unpicked(c, e, t);
    } else {
      PickedNext(c, e);
      ActivePick(Charged(c), t);
    }
  }

  /** The starvation bound: in an active runqueue of n threads each is dispatched within 2 * n dispatches, and within
      2 * n * RR_INTERVAL ticks, whatever arrives in the meantime. */
  lemma StarvationBound(c: Cpu, events: seq<Event>, t: Tid, n: nat)
    requires Inv(c) && 0 < In(c.active, t) && n == Size(c.active)
    requires |Picks(c, events)| >= 2 * n || Ticks(events) >= 2 * n * RR_INTERVAL
    ensures DispatchedBy(Picks(c, events), 2 * n, t)
  {
    ActiveBound(c, events, t);
  }

  /** A thread that has left the just-queued list does not come back. */
  lemma {:induction false} GoneForGood(c: Cpu, events: seq<Event>, t: Tid)
    requires Inv(c) && t < |c.procs| && t !in c.justQueued
    ensures t !in Run(c, events).justQueued
    decreases |events|
  {
    if events != [] {
      NextInv(c, events[0]);
      NextGone(c, events[0], t);
      GoneForGood(Next(c, events[0]), events[1..], t);
    }
  }

  lemma NextGone(c: Cpu, e: Event, t: Tid)
    requires Inv(c) && t < |c.procs| && t !in c.justQueued
    ensures t !in Next(c, e).justQueued && t < |Next(c, e).procs|
  {
    var d := Charged(c);
    ChargedInv(c);
    DispatchFacts(d);
    if Dispatch(d).0.Some? {
      PickFacts(d, Dispatch(d).0.value);
    }
    var j := Dispatch(d).1.justQueued;
    assert j == d.justQueued || j == [] || (d.justQueued != [] && j == d.justQueued[1..]);
  }

  /** How many dispatches until the thread at position `j` of the just-queued list has left it. */
  function Wait(j: nat, turn: bool): nat { 2 * j + if turn then 1 else 2 }

  lemma QueuedPick(c: Cpu, j: nat)
    requires |c.active| == |c.expired| == NR_PRIOS && j < |c.justQueued|
    ensures var d := Dispatch(c).1;
            || c.justQueued[j] !in d.justQueued || d.justQueued == []
            || (j < |d.justQueued| && d.justQueued[j] == c.justQueued[j] && Wait(j, d.turn) < Wait(j, c.turn))
            || (0 < j && j - 1 < |d.justQueued| && d.justQueued[j - 1] == c.justQueued[j] &&
                Wait(j - 1, d.turn) < Wait(j, c.turn))
            || (j == 0 && FromFresh(c))
  {
  }

  /** A just-queued thread with `j` threads before it has left the list within 2 * (j + 1) dispatches, whatever
      arrives behind it. */
  lemma JustQueuedSome(c: Cpu, events: seq<Event>, j: nat)
    requires Inv(c) && j < |c.justQueued| && |Picks(c, events)| >= Wait(j, c.turn)
    ensures events != []
  {
  }

  /** One event in the wait of the just-queued thread at position `j`. */
  lemma QueuedStep(c: Cpu, e: Event, j: nat, t: Tid)
    requires Inv(c) && j < |c.justQueued| && c.justQueued[j] == t
    ensures var n := Next(c, e);
            && t < |n.procs|
            && (Picked(c, e).None? ==> j < |n.justQueued| && n.justQueued[j] == t && n.turn == c.turn)
            && (Picked(c, e).Some? ==>
                  || t !in n.justQueued
                  || (j < |n.justQueued| && n.justQueued[j] == t && Wait(j, n.turn) < Wait(j, c.turn))
                  || (0 < j <= |n.justQueued| && n.justQueued[j - 1] == t && Wait(j - 1, n.turn) < Wait(j, c.turn)))
  {
    NextInv(c, e);
    OnlyOnce(c, t);
    hide OnePlace, Dispatch;
    if Picked(c, e).None? {
      Unpicked(c, e, t);
    } else {
      PickedNext(c, e);
      QueuedPick(Charged(c), j);
    }
  }

  lemma {:induction false} JustQueuedBound(c: Cpu, events: seq<Event>, j: nat, t: Tid)
    requires Inv(c) && j < |c.justQueued| && c.justQueued[j] == t && |Picks(c, events)| >= Wait(j, c.turn)
    ensures t !in Run(c, events).justQueued
    decreases |events|
  {
    hide Inv, Next, Picked;
    JustQueuedSome(c, events, j);
    var e, rest := events[0], events[1..];
    NextInv(c, e);
    QueuedStep(c, e, j, t);
    var n := Next(c, e);
    if t !in n.justQueued {
      GoneForGood(n, rest, t);
    } else if j < |n.justQueued| && n.justQueued[j] == t && (Picked(c, e).None? || Wait(j, n.turn) < Wait(j, c.turn)) {
      JustQueuedBound(n, rest, j, t);
    } else {
      JustQueuedBound(n, rest, j - 1, t);
    }
  }

  /** A thread is in the just-queued list at one position only. */
  lemma OnlyOnce(c: Cpu, t: Tid)
    requires Inv(c) && t in c.justQueued
    ensures t < |c.procs| && Occurs(c.justQueued, t) == 1
    ensures forall i, k :: 0 <= i < k < |c.justQueued| && c.justQueued[i] == t ==> c.justQueued[k] != t
  {
    assert Places(c, t) == if t < |c.procs| then 1 else 0;
    OccursConcat(c.justQueued, [], t);
    forall i, k | 0 <= i < k < |c.justQueued| && c.justQueued[i] == t
      ensures c.justQueued[k] != t
    {
      var a, b := c.justQueued[..k], c.justQueued[k..];
      assert c.justQueued == a + b && a[i] == t && b[0] == c.justQueued[k];
      OccursConcat(a, b, t);
      OccursConcat(b, [], t);
    }
  }

  lemma LeavesWithin(c: Cpu, events: seq<Event>, j: nat)
    requires Inv(c) && j < |c.justQueued| && |Picks(c, events)| >= 2 * (j + 1)
    ensures c.justQueued[j] !in Run(c, events).justQueued
  {
    JustQueuedBound(c, events, j, c.justQueued[j]);
  }
}
