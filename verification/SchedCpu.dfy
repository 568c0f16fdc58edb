/** The scheduler of kern/sched.c as it changes its per-CPU state in place. */
module SchedCpu {
  import opened Options
  import opened Sched
  import opened SchedSlices

  /** rq_get_highest_prio() */
  method HighestPrio(rq: RunQueue) returns (prio: int)
    ensures prio == Highest(rq)
  {
    var i: int := |rq| - 1;
    while i >= 0
      invariant -1 <= i < |rq| && HighestBelow(rq, |rq|) == HighestBelow(rq, i + 1)
    {
      if rq[i] != [] {
        return i;
      }
      i := i - 1;
    }
    return -1;
  }

  class PerCpu {
    var sysTicks: nat
    var active: RunQueue
    var expired: RunQueue
    var justQueued: seq<Tid>
    var currentPrio: nat
    var justQueuedTurn: bool
    var current: Tid
    var procs: seq<Proc>

    ghost function View(): Cpu
      reads this
    {
      Cpu(sysTicks, active, expired, justQueued, currentPrio, justQueuedTurn, current, procs)
    }

    /** sched_percpu_area_init() and schedulify_this_code_path() */
    constructor ()
      ensures View() == Boot() && Inv(View())
    {
      sysTicks, justQueued, currentPrio, justQueuedTurn, current := 0, [], DEFAULT_PRIO, true, 0;
      active, expired := seq(NR_PRIOS, _ => []), seq(NR_PRIOS, _ => []);
      procs := [Proc(0, OnCpu, 0, seq(NR_PRIOS, _ => 0))];
      new;
      BootInv();
    }

    /** sched_enqueue() of a new thread */
    method SchedEnqueue() returns (t: Tid)
      requires Inv(View())
      modifies this`justQueued, this`procs
      ensures t == |old(procs)| && View() == Enqueue(old(View())) && Inv(View())
    {
      EnqueueInv(View());
      t := |procs|;
      procs := procs + [Proc(0, Runnable, 0, seq(NR_PRIOS, _ => 0))];
      justQueued := justQueued + [t];
    }

    /** rq_add_proc(): to the tail of a list, with a fresh slice */
    method AddActive(t: Tid, prio: nat)
      requires t < |procs| && prio < |active|
      modifies this`active, this`procs
      ensures active == Append(old(active), prio, [t])
      ensures procs == old(procs)[t := old(procs)[t].(runtime := 0, state := Runnable)]
    {
      procs := procs[t := procs[t].(runtime := 0, state := Runnable)];
      active := active[prio := active[prio] + [t]];
    }

    /** Swap the runqueues and move the just-queued threads, one by one, to the new active runqueue. */
    method SwapQueues()
      requires |active| == |expired| == NR_PRIOS
      requires forall t :: t in justQueued ==> t < |procs| && Queued(procs[t])
      modifies this`active, this`expired, this`justQueued, this`procs
      ensures View() == Swapped(old(View()))
    {
      ghost var v := View();
      active, expired := expired, active;
      ghost var done := [];
      assert v.expired[DEFAULT_PRIO] + [] == v.expired[DEFAULT_PRIO] && [] + justQueued == justQueued;
      while justQueued != []
        invariant v.justQueued == done + justQueued && procs == v.procs && expired == v.active
        invariant active == Append(v.expired, DEFAULT_PRIO, done)
        decreases |justQueued|
      {
        var t := justQueued[0];
        FirstMoves(done, justQueued, v.procs, t);
        justQueued := justQueued[1..];
        AddActive(t, DEFAULT_PRIO);
        AppendTwice(v.expired, DEFAULT_PRIO, done, t);
        done := done + [t];
      }
      assert done + [] == done;
    }

    /** dispatch_runnable_proc() */
    method DispatchRunnable() returns (pick: Option<Pick>)
      requires |active| == |expired| == NR_PRIOS
      requires forall t :: t in justQueued ==> t < |procs| && Queued(procs[t])
      modifies this`active, this`expired, this`justQueued, this`justQueuedTurn, this`procs
      ensures (pick, View()) == Dispatch(old(View()))
    {
      if justQueuedTurn && justQueued != [] {
        justQueuedTurn := false;
        pick := Some(Pick(justQueued[0], DEFAULT_PRIO, true));
        justQueued := justQueued[1..];
        return;
      }
      var h := HighestPrio(active);
      if h == -1 {
        SwapQueues();
      }
      h := HighestPrio(active);
      if h == -1 {
        return None;
      }
      justQueuedTurn := true;
      assert active[h] != [];
      pick := Some(Pick(active[h][0], h, false));
      active := active[h := active[h][1..]];
    }

    /** preempt() after the current thread was put into the expired runqueue */
    method Preempt(pick: Pick)
      requires current < |procs| && pick.tid < |procs| && |expired| == NR_PRIOS && currentPrio < NR_PRIOS
      requires pick.tid != current && procs[pick.tid].state == Runnable && pick.prio < NR_PRIOS
      requires OffQueues(View(), pick.tid)
      modifies this`expired, this`procs, this`currentPrio, this`current
      ensures View() == Switched(old(View()), pick)
      ensures current == pick.tid && currentPrio == pick.prio && |expired| == |old(expired)|
      ensures var q := if old(currentPrio) == 0 then 0 else old(currentPrio) - 1;
              expired == old(expired)[q := old(expired)[q] + [old(current)]]
    {
      currentPrio := if currentPrio == MIN_PRIO then MIN_PRIO else currentPrio - 1;
      procs := procs[current := procs[current].(runtime := 0, state := Runnable)];
      expired := expired[currentPrio := expired[currentPrio] + [current]];
      AppendIn(old(expired), currentPrio, [current], pick.tid);
      assert pick.tid != current && OffQueues(View(), pick.tid) && procs[pick.tid].state == Runnable;
      currentPrio := pick.prio;
      procs := procs[pick.tid := procs[pick.tid].(state := OnCpu)];
      current := pick.tid;
    }

    /** Charge one tick to the current thread. */
    method Charge()
      requires current < |procs| && currentPrio < |procs[current].prioMap|
      modifies this`sysTicks, this`procs
      ensures View() == Charged(old(View()))
    {
      sysTicks := sysTicks + 1;
      var p := procs[current];
      procs := procs[current := p.(runtime := p.runtime + 1, overall := p.overall + 1,
      prioMap := p.prioMap[currentPrio := p.prioMap[currentPrio] + 1])];
    }

    /** sched_tick(): none of its assertions can fail and its panic cannot be reached. */
    method SchedTick() returns (t: Tid)
      requires Inv(View())
      modifies this
      ensures View() == Tick(old(View())) && Inv(View()) && t == current
      ensures t != old(current) <==> 2 <= old(procs[current].runtime) + 1 && 1 < |procs|
      ensures t == old(current) ==> currentPrio == old(currentPrio)
      ensures t != old(current) ==>
                EndsIn(expired[if old(currentPrio) == 0 then 0 else old(currentPrio) - 1], old(current))
    {
      SliceLength(View());
      TickOthers(View());
      TickInv(View());
      ChargedInv(View());
      Charge();
      ghost var d := View();
      assert procs[current].state == OnCpu && currentPrio <= MAX_PRIO;
      if procs[current].runtime >= RR_INTERVAL {
        QueuedAll(d);
        DispatchFacts(d);
        var pick := DispatchRunnable();
        if pick.None? {
          return current;
        }
        PickFacts(d, pick.value);
        PickedOff(d, pick.value);
        Preempt(pick.value);
        return current;
      }
      var newPrio := HighestPrio(active);
      if newPrio > currentPrio {
        assert false;
      }
      return current;
    }
  }

  /** A dispatched thread is in no list any more, which is what list_empty() of its node tells. */
  lemma PickedOff(c: Cpu, pick: Pick)
    requires Inv(c) && Dispatch(c).0 == Some(pick)
    ensures OffQueues(Dispatch(c).1, pick.tid)
  {
    DispatchPlaces(c, pick.tid);
    PickFacts(c, pick);
    assert Places(c, pick.tid) == 1;
  }

  /** One turn of the loop over the just-queued threads. */
  lemma FirstMoves(done: seq<Tid>, list: seq<Tid>, procs: seq<Proc>, t: Tid)
    requires list != [] && t == list[0] && forall u :: u in done + list ==> u < |procs| && Queued(procs[u])
    ensures t < |procs| && done + list == (done + [t]) + list[1..]
    ensures procs[t := procs[t].(runtime := 0, state := Runnable)] == procs
  {
    assert (done + list)[|done|] == t && t in done + list;
    assert list == [t] + list[1..];
    assert procs[t].(runtime := 0, state := Runnable) == procs[t];
  }

  lemma AppendTwice(rq: RunQueue, p: nat, list: seq<Tid>, t: Tid)
    requires p < |rq|
    ensures Append(Append(rq, p, list), p, [t]) == Append(rq, p, list + [t])
  {
    assert (rq[p] + list) + [t] == rq[p] + (list + [t]);
  }

  /** Just-queued threads are queued threads. */
  lemma QueuedAll(c: Cpu)
    requires Inv(c)
    ensures forall t :: t in c.justQueued ==> t < |c.procs| && Queued(c.procs[t])
  {
    forall t | t in c.justQueued
      ensures t < |c.procs| && Queued(c.procs[t])
    {
      assert Places(c, t) == if t < |c.procs| then 1 else 0;
      OccursConcat(c.justQueued, [], t);
    }
  }
}
