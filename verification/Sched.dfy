/** The multi-level feedback queue scheduler of kern/sched.c and include/sched.h: two runqueues that are swapped,
    and a list of threads that were just queued. */
module Sched {
  import opened Options
  const MIN_PRIO := 0
  const MAX_PRIO := 19
  const DEFAULT_PRIO := 10
  const RR_INTERVAL := 2
  const NR_PRIOS := 20

  /** Threads are numbered in the order in which they are first enqueued. */
  type Tid = nat

  datatype State = Runnable | OnCpu

  /** struct proc: the slice used so far, the state and the statistics. */
  datatype Proc = Proc(runtime: nat, state: State, overall: nat, prioMap: seq<nat>)

  /** struct runqueue: one list for each priority. */
  type RunQueue = seq<seq<Tid>>

  /** struct percpu_sched and `current`. */
  datatype Cpu = Cpu(ticks: nat, active: RunQueue, expired: RunQueue, justQueued: seq<Tid>,
                     prio: nat, turn: bool, current: Tid, procs: seq<Proc>)

  /** How often a thread is in a list. */
  function Occurs(list: seq<Tid>, t: Tid): nat { multiset(list)[t] }

  lemma OccursConcat(a: seq<Tid>, b: seq<Tid>, t: Tid)
    ensures Occurs(a + b, t) == Occurs(a, t) + Occurs(b, t)
    ensures Occurs([t], t) == 1 && Occurs([], t) == 0 && (b == [] ==> a + b == a)
    ensures forall u :: u != t ==> Occurs([u], t) == 0
    ensures t in a <==> 0 < Occurs(a, t)
  {
    assert multiset(a + b) == multiset(a) + multiset(b);
  }

  lemma OccursTail(a: seq<Tid>, t: Tid)
    requires a != []
    ensures Occurs(a, t) == Occurs(a[1..], t) + if a[0] == t then 1 else 0
  {
    assert a == [a[0]] + a[1..];
    OccursConcat([a[0]], a[1..], t);
  }

  /** How often a thread is in the lists of priorities below `k`. */
  function Below(rq: RunQueue, k: nat, t: Tid): nat
    requires k <= |rq|
  {
    if k == 0 then 0 else Below(rq, k - 1, t) + Occurs(rq[k - 1], t)
  }

  function In(rq: RunQueue, t: Tid): nat { Below(rq, |rq|, t) }

  lemma {:induction false} BelowUpdate(rq: RunQueue, k: nat, p: nat, list: seq<Tid>, t: Tid)
    requires k <= |rq| && p < |rq|
    ensures Below(rq[p := list], k, t) == Below(rq, k, t) + if p < k then Occurs(list, t) - Occurs(rq[p], t) else 0
  {
    if k > 0 {
      BelowUpdate(rq, k - 1, p, list, t);
    }
  }

  lemma {:induction false} BelowAt(rq: RunQueue, k: nat, p: nat, t: Tid)
    requires p < k <= |rq|
    ensures Occurs(rq[p], t) <= Below(rq, k, t)
  {
    if p < k - 1 {
      BelowAt(rq, k - 1, p, t);
    }
  }

  lemma {:induction false} BelowEmpty(rq: RunQueue, k: nat, t: Tid)
    requires k <= |rq| && forall p :: 0 <= p < k ==> rq[p] == []
    ensures Below(rq, k, t) == 0
  {
    if k > 0 {
      BelowEmpty(rq, k - 1, t);
    }
  }

  /** rq_get_highest_prio(), or -1 for an empty runqueue, searched below `k`. */
  function HighestBelow(rq: RunQueue, k: nat): (p: int)
    requires k <= |rq|
    ensures -1 <= p < k && (p >= 0 ==> rq[p] != []) && forall q :: p < q < k ==> rq[q] == []
  {
    if k == 0 then -1 else if rq[k - 1] != [] then k - 1 else HighestBelow(rq, k - 1)
  }

  function Highest(rq: RunQueue): int { HighestBelow(rq, |rq|) }

  predicate Empty(rq: RunQueue) { Highest(rq) == -1 }

  function Append(rq: RunQueue, p: nat, list: seq<Tid>): RunQueue
    requires p < |rq|
  {
    rq[p := rq[p] + list]
  }

  function Pop(rq: RunQueue, p: nat): RunQueue
    requires p < |rq| && rq[p] != []
  {
    rq[p := rq[p][1..]]
  }

  /** In how many places a thread is: on the CPU, in a runqueue, or just queued. */
  function Places(c: Cpu, t: Tid): nat {
    (if c.current == t then 1 else 0) + In(c.active, t) + In(c.expired, t) + Occurs(c.justQueued, t)
  }

  /** Each thread is in exactly one place. */
  ghost predicate OnePlace(c: Cpu) {
    forall t: Tid :: Places(c, t) == if t < |c.procs| then 1 else 0
  }

  /** The thread is in none of the lists of the CPU. */
  predicate OffQueues(c: Cpu, t: Tid) {
    In(c.active, t) == 0 && In(c.expired, t) == 0 && Occurs(c.justQueued, t) == 0
  }

  predicate Queued(p: Proc) { p.runtime == 0 && p.state == Runnable }

  /** What holds in every reachable state. */
  ghost predicate Inv(c: Cpu) {
    && |c.active| == NR_PRIOS && |c.expired| == NR_PRIOS
    && OnePlace(c)
    && c.current < |c.procs|
    && c.procs[c.current].state == OnCpu
    && (forall t :: 0 <= t < |c.procs| && t != c.current ==> Queued(c.procs[t]))
    && (forall t :: 0 <= t < |c.procs| ==> |c.procs[t].prioMap| == NR_PRIOS)
    && c.prio <= DEFAULT_PRIO
    && (forall p :: c.prio < p < NR_PRIOS ==> c.active[p] == [])
    && (forall p :: DEFAULT_PRIO < p < NR_PRIOS ==> c.active[p] == [] && c.expired[p] == [])
  }

  /** A dispatched thread, its priority, and the list it came from. */
  datatype Pick = Pick(tid: Tid, prio: nat, newcomer: bool)

  /** The runqueues are swapped, and the threads that were just queued join the new active one. */
  function Swapped(c: Cpu): Cpu
    requires |c.expired| == NR_PRIOS
  {
    c.(active := Append(c.expired, DEFAULT_PRIO, c.justQueued), expired := c.active, justQueued := [])
  }

  predicate FromFresh(c: Cpu) { c.turn && c.justQueued != [] }

  /** Does dispatching swap the runqueues? */
  predicate Swaps(c: Cpu) { !FromFresh(c) && Empty(c.active) }

  /** The state from which the active runqueue is used. */
  function Settled(c: Cpu): Cpu
    requires |c.expired| == NR_PRIOS
  {
    if Empty(c.active) then Swapped(c) else c
  }

  /** dispatch_runnable_proc(): alternate between the just-queued list and the active runqueue. */
  function Dispatch(c: Cpu): (r: (Option<Pick>, Cpu))
    requires |c.active| == |c.expired| == NR_PRIOS
    ensures r.0.Some? ==> r.0.value.prio < NR_PRIOS
  {
    if FromFresh(c) then
      (Some(Pick(c.justQueued[0], DEFAULT_PRIO, true)), c.(turn := false, justQueued := c.justQueued[1..]))
    else
      var s := Settled(c);
      if Empty(s.active) then (None, s)
      else
        var h := Highest(s.active);
        (Some(Pick(s.active[h][0], h, false)), s.(turn := true, active := Pop(s.active, h)))
  }

  /** One tick is charged to the current thread. */
  function Charged(c: Cpu): Cpu
    requires c.current < |c.procs| && c.prio < |c.procs[c.current].prioMap|
  {
    var p := c.procs[c.current];
    c.(ticks := c.ticks + 1,
    procs := c.procs[c.current := p.(runtime := p.runtime + 1, overall := p.overall + 1,
    prioMap := p.prioMap[c.prio := p.prioMap[c.prio] + 1])])
  }

  function Lower(prio: nat): nat { if prio == 0 then 0 else prio - 1 }

  /** The current thread goes to the expired runqueue with a lower priority, and the picked one runs. */
  function Switched(c: Cpu, pick: Pick): Cpu
    requires c.current < |c.procs| && pick.tid < |c.procs| && |c.expired| == NR_PRIOS && c.prio < NR_PRIOS
  {
    var procs := c.procs[c.current := c.procs[c.current].(runtime := 0, state := Runnable)];
    c.(expired := Append(c.expired, Lower(c.prio), [c.current]), prio := pick.prio, current := pick.tid,
    procs := procs[pick.tid := procs[pick.tid].(state := OnCpu)])
  }

  lemma AppendIn(rq: RunQueue, p: nat, list: seq<Tid>, t: Tid)
    requires p < |rq|
    ensures In(Append(rq, p, list), t) == In(rq, t) + Occurs(list, t)
  {
    BelowUpdate(rq, |rq|, p, rq[p] + list, t);
    OccursConcat(rq[p], list, t);
  }

  lemma PopIn(rq: RunQueue, p: nat, t: Tid)
    requires p < |rq| && rq[p] != []
    ensures In(rq, t) == In(Pop(rq, p), t) + if rq[p][0] == t then 1 else 0
  {
    BelowUpdate(rq, |rq|, p, rq[p][1..], t);
    OccursTail(rq[p], t);
  }

  /** Swapping moves no thread out of the queues. */
  lemma SettledPlaces(c: Cpu, t: Tid)
    requires |c.active| == |c.expired| == NR_PRIOS
    ensures Places(Settled(c), t) == Places(c, t)
  {
    AppendIn(c.expired, DEFAULT_PRIO, c.justQueued, t);
    OccursConcat([], [], t);
  }

  /** Dispatching takes one thread from where it was; everything else stays in its place. */
  lemma DispatchPlaces(c: Cpu, t: Tid)
    requires |c.active| == |c.expired| == NR_PRIOS
    ensures var (pick, d) := Dispatch(c);
            Places(c, t) == Places(d, t) + if pick.Some? && pick.value.tid == t then 1 else 0
  {
    if FromFresh(c) {
      OccursTail(c.justQueued, t);
    } else {
      SettledPlaces(c, t);
      var s := Settled(c);
      if !Empty(s.active) {
        PopIn(s.active, Highest(s.active), t);
      }
    }
  }

  /** What dispatching returns and what it leaves alone. */
  lemma DispatchFacts(c: Cpu)
    requires Inv(c)
    ensures var (pick, d) := Dispatch(c);
            && d.procs == c.procs && d.current == c.current && d.prio == c.prio && d.ticks == c.ticks
            && |d.active| == |d.expired| == NR_PRIOS
            && (forall p :: DEFAULT_PRIO < p < NR_PRIOS ==> d.active[p] == [] && d.expired[p] == [])
            && (pick.None? ==> Empty(d.active) && d.justQueued == [])
            && (pick.Some? ==>
                  && pick.value.prio <= DEFAULT_PRIO
                  && forall p :: pick.value.prio < p < NR_PRIOS ==> d.active[p] == [])
  {
    if !FromFresh(c) {
      var s := Settled(c);
      assert |s.active| == NR_PRIOS &&
             forall p :: DEFAULT_PRIO < p < NR_PRIOS ==> s.active[p] == [] && s.expired[p] == [];
      var h := Highest(s.active);
      assert forall p :: h < p < NR_PRIOS ==> s.active[p] == [];
      assert h >= 0 ==> s.active[h] != [] && h <= DEFAULT_PRIO;
    }
  }

  lemma PickFacts(c: Cpu, pick: Pick)
    requires Inv(c) && Dispatch(c).0 == Some(pick)
    ensures pick.tid < |c.procs| && pick.tid != c.current
  {
    DispatchPlaces(c, pick.tid);
    assert Places(c, pick.tid) <= 1;
  }

  lemma ChargedInv(c: Cpu)
    requires Inv(c)
    ensures Inv(Charged(c))
  {
    assert forall t: Tid :: Places(Charged(c), t) == Places(c, t);
  }

  /** sched_tick() */
  function Tick(c: Cpu): Cpu
    requires Inv(c)
  {
    var d := Charged(c);
    if d.procs[d.current].runtime < RR_INTERVAL then d
    else
      ChargedInv(c);
      DispatchFacts(d);
      var (pick, e) := Dispatch(d);
      if pick.None? then e
      else
        PickFacts(d, pick.value);
        Switched(e, pick.value)
  }

  /** sched_enqueue() of a new thread. */
  function Enqueue(c: Cpu): Cpu {
    c.(justQueued := c.justQueued + [|c.procs|],
    procs := c.procs + [Proc(0, Runnable, 0, seq(NR_PRIOS, _ => 0))])
  }

  /** The state after sched_percpu_area_init() and schedulify_this_code_path(). */
  function Boot(): Cpu {
    var empty := seq(NR_PRIOS, _ => []);
    Cpu(0, empty, empty, [], DEFAULT_PRIO, true, 0, [Proc(0, OnCpu, 0, seq(NR_PRIOS, _ => 0))])
  }

  lemma BootInv()
    ensures Inv(Boot())
  {
    var c := Boot();
    forall t: Tid
      ensures Places(c, t) == if t < |c.procs| then 1 else 0
    {
      BelowEmpty(c.active, NR_PRIOS, t);
      OccursConcat([], [], t);
    }
  }

  lemma EnqueueInv(c: Cpu)
    requires Inv(c)
    ensures Inv(Enqueue(c))
  {
    var n: Tid := |c.procs|;
    forall t: Tid
      ensures Places(Enqueue(c), t) == if t < n + 1 then 1 else 0
    {
      OccursConcat(c.justQueued, [n], t);
      assert Places(c, t) == if t < n then 1 else 0;
    }
  }

  /** Switching threads moves the old one to the expired runqueue and the picked one onto the CPU. */
  lemma SwitchedPlaces(c: Cpu, pick: Pick, t: Tid)
    requires c.current < |c.procs| && pick.tid < |c.procs| && |c.expired| == NR_PRIOS && c.prio < NR_PRIOS
    ensures Places(Switched(c, pick), t) == Places(c, t) + if pick.tid == t then 1 else 0
  {
    AppendIn(c.expired, Lower(c.prio), [c.current], t);
    OccursConcat([], [], t);
  }

  lemma SwitchedInv(c: Cpu, d: Cpu, pick: Pick)
    requires Inv(c) && Dispatch(c) == (Some(pick), d)
    ensures |d.expired| == NR_PRIOS && d.current < |d.procs| && pick.tid < |d.procs| && d.prio < NR_PRIOS
    ensures Inv(Switched(d, pick))
  {
    DispatchFacts(c);
    PickFacts(c, pick);
    forall t: Tid
      ensures Places(Switched(d, pick), t) == if t < |c.procs| then 1 else 0
    {
      SwitchedPlaces(d, pick, t);
      DispatchPlaces(c, t);
      assert Places(c, t) == if t < |c.procs| then 1 else 0;
    }
  }

  lemma IdleInv(c: Cpu, d: Cpu)
    requires Inv(c) && Dispatch(c) == (None, d)
    ensures Inv(d)
  {
    DispatchFacts(c);
    forall t: Tid
      ensures Places(d, t) == if t < |c.procs| then 1 else 0
    {
      DispatchPlaces(c, t);
      assert Places(c, t) == if t < |c.procs| then 1 else 0;
    }
  }

  /** Every tick keeps the invariant. */
  lemma TickInv(c: Cpu)
    requires Inv(c)
    ensures Inv(Tick(c))
  {
    var d := Charged(c);
    ChargedInv(c);
    if d.procs[d.current].runtime >= RR_INTERVAL {
      var (pick, e) := Dispatch(d);
      if pick.Some? {
        SwitchedInv(d, e, pick.value);
      } else {
        IdleInv(d, e);
      }
    }
  }
}
