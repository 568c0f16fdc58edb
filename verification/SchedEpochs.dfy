/** What happens between two swaps of the runqueues of kern/sched.c, and the accounting of ticks. */
module SchedEpochs {
  import opened Options
  import opened Sched
  import opened SchedRuns

  predicate Slicing(c: Cpu)
    requires c.current < |c.procs|
  {
    c.procs[c.current].runtime + 1 >= RR_INTERVAL
  }

  /** No dispatch of the run swaps the runqueues. */
  predicate SwapFree(c: Cpu, events: seq<Event>)
    requires Inv(c)
    decreases |events|
  {
    events != [] ==>
      && (events[0] == Tick_ && Slicing(c) ==> !Swaps(Charged(c)))
      && (NextInv(c, events[0]); SwapFree(Next(c, events[0]), events[1..]))
  }

  /** A thread that can still be dispatched without a swap. */
  function Waiting(c: Cpu, t: Tid): nat { In(c.active, t) + Occurs(c.justQueued, t) }

  function PickCount(picks: seq<Pick>, t: Tid): nat {
    if picks == [] then 0 else PickCount(picks[1..], t) + if picks[0].tid == t then 1 else 0
  }

  lemma DispatchWaiting(c: Cpu, t: Tid)
    requires |c.active| == |c.expired| == NR_PRIOS && !Swaps(c)
    ensures var (pick, d) := Dispatch(c);
            pick.Some? && Waiting(c, t) == Waiting(d, t) + if pick.value.tid == t then 1 else 0
  {
    if FromFresh(c) {
      OccursTail(c.justQueued, t);
    } else {
      PopIn(c.active, Highest(c.active), t);
    }
  }

  lemma NextWaiting(c: Cpu, e: Event, t: Tid)
    requires Inv(c) && (e == Tick_ && Slicing(c) ==> !Swaps(Charged(c)))
    ensures var n, p := Next(c, e), Picked(c, e);
            && Waiting(n, t) + (if p.Some? && p.value.tid == t then 1 else 0)
               == Waiting(c, t) + (if e == Arrival && t == |c.procs| then 1 else 0)
            && |n.procs| == |c.procs| + if e == Arrival then 1 else 0
  {
    ChargedInv(c);
    if e == Arrival {
      OccursConcat(c.justQueued, [|c.procs|], t);
    } else if Slicing(c) {
      DispatchWaiting(Charged(c), t);
      PickedNext(c, e);
      DispatchFacts(Charged(c));
      PickFacts(Charged(c), Picked(c, e).value);
    }
  }

  /** Without a swap, each dispatch uses up a thread that was waiting at the start or arrived later. */
  lemma {:induction false} PicksConserve(c: Cpu, events: seq<Event>, t: Tid)
    requires Inv(c) && SwapFree(c, events)
    ensures |c.procs| <= |Run(c, events).procs|
    ensures PickCount(Picks(c, events), t) + Waiting(Run(c, events), t)
         == Waiting(c, t) + if |c.procs| <= t < |Run(c, events).procs| then 1 else 0
    decreases |events|
  {
    if events != [] {
      var n, p := Next(c, events[0]), Picked(c, events[0]);
      NextInv(c, events[0]);
      NextWaiting(c, events[0], t);
      PicksConserve(n, events[1..], t);
      if p.Some? {
        assert ([p.value] + Picks(n, events[1..]))[1..] == Picks(n, events[1..]);
      }
    }
  }

  lemma {:induction false} CountAtLeast(picks: seq<Pick>, i: nat, k: nat)
    requires i < k < |picks| && picks[i].tid == picks[k].tid
    ensures PickCount(picks, picks[i].tid) >= 2
  {
    if i > 0 {
      CountAtLeast(picks[1..], i - 1, k - 1);
    } else {
      CountOne(picks[1..], k - 1);
    }
  }

  lemma {:induction false} CountOne(picks: seq<Pick>, k: nat)
    requires k < |picks|
    ensures PickCount(picks, picks[k].tid) >= 1
  {
    if k > 0 {
      CountOne(picks[1..], k - 1);
    }
  }

  /** Between two swaps no thread is dispatched twice. */
  lemma OncePerEpoch(c: Cpu, events: seq<Event>, i: nat, k: nat)
    requires Inv(c) && SwapFree(c, events) && i < k < |Picks(c, events)|
    ensures Picks(c, events)[i].tid != Picks(c, events)[k].tid
  {
    var t := Picks(c, events)[i].tid;
    PicksConserve(c, events, t);
    assert Places(c, t) == if t < |c.procs| then 1 else 0;
    if Picks(c, events)[k].tid == t {
      CountAtLeast(Picks(c, events), i, k);
    }
  }

  predicate AtMost(rq: RunQueue, q: nat) { forall p :: q < p < |rq| ==> rq[p] == [] }

  lemma NextAtMost(c: Cpu, e: Event, q: nat)
    requires Inv(c) && (e == Tick_ && Slicing(c) ==> !Swaps(Charged(c))) && AtMost(c.active, q)
    ensures var n, p := Next(c, e), Picked(c, e);
            AtMost(n.active, q) &&
            (p.Some? && !p.value.newcomer ==> p.value.prio <= q && AtMost(n.active, p.value.prio))
  {
    ChargedInv(c);
    if e == Tick_ && Slicing(c) {
      DispatchWaiting(Charged(c), 0);
      PickedNext(c, e);
      DispatchFacts(Charged(c));
    }
  }

  lemma {:induction false} PicksAtMost(c: Cpu, events: seq<Event>, q: nat, k: nat)
    requires Inv(c) && SwapFree(c, events) && AtMost(c.active, q)
    requires k < |Picks(c, events)| && !Picks(c, events)[k].newcomer
    ensures Picks(c, events)[k].prio <= q
    decreases |events|
  {
    var n, p := Next(c, events[0]), Picked(c, events[0]);
    NextInv(c, events[0]);
    NextAtMost(c, events[0], q);
    if p.None? {
      PicksAtMost(n, events[1..], q, k);
    } else if k > 0 {
      assert Picks(c, events)[k] == Picks(n, events[1..])[k - 1];
      PicksAtMost(n, events[1..], q, k - 1);
    }
  }

  /** Between two swaps the dispatches from the active runqueue have non-increasing priority. */
  lemma {:induction false} PrioritiesFall(c: Cpu, events: seq<Event>, i: nat, k: nat)
    requires Inv(c) && SwapFree(c, events) && i < k < |Picks(c, events)|
    requires !Picks(c, events)[i].newcomer && !Picks(c, events)[k].newcomer
    ensures Picks(c, events)[k].prio <= Picks(c, events)[i].prio
    decreases |events|
  {
    var n, p := Next(c, events[0]), Picked(c, events[0]);
    NextInv(c, events[0]);
    NextAtMost(c, events[0], MAX_PRIO);
    if p.None? {
      PrioritiesFall(n, events[1..], i, k);
    } else {
      assert Picks(c, events)[k] == Picks(n, events[1..])[k - 1];
      if i > 0 {
        assert Picks(c, events)[i] == Picks(n, events[1..])[i - 1];
        PrioritiesFall(n, events[1..], i - 1, k - 1);
      } else {
        PicksAtMost(n, events[1..], p.value.prio, k - 1);
      }
    }
  }

  /** One FIFO queue and the thread on the CPU with its slice. */
  datatype Ring = Ring(current: Tid, used: nat, queue: seq<Tid>)

  /** Plain round robin: at the end of a slice the first thread of the queue runs and the old one goes to its end. */
  function Turn(r: Ring): Ring {
    if r.used + 1 < RR_INTERVAL || r.queue == [] then r.(used := r.used + 1)
    else Ring(r.queue[0], 0, r.queue[1..] + [r.current])
  }

  function Turns(r: Ring, n: nat): Ring
    decreases n
  {
    if n == 0 then r else Turns(Turn(r), n - 1)
  }

  /** All threads have the lowest priority and none was just queued. */
  ghost predicate AllMin(c: Cpu) {
    Inv(c) && c.justQueued == [] && c.prio == MIN_PRIO && AtMost(c.active, MIN_PRIO) && AtMost(c.expired, MIN_PRIO)
  }

  /** The two runqueues read as one queue. */
  function AsRing(c: Cpu): Ring
    requires Inv(c)
  {
    Ring(c.current, c.procs[c.current].runtime, c.active[MIN_PRIO] + c.expired[MIN_PRIO])
  }

  lemma MinEmpty(rq: RunQueue)
    requires |rq| == NR_PRIOS && AtMost(rq, MIN_PRIO)
    ensures Highest(rq) == if rq[MIN_PRIO] == [] then -1 else MIN_PRIO
  {
    var h := Highest(rq);
    assert h >= 0 ==> rq[h] != [];
  }

  lemma MinDispatch(c: Cpu)
    requires AllMin(c)
    ensures var q := AsRing(c).queue;
            var (pick, d) := Dispatch(c);
            && AtMost(d.active, MIN_PRIO) && AtMost(d.expired, MIN_PRIO) && d.justQueued == []
            && |d.active| == |d.expired| == NR_PRIOS
            && (if q == [] then pick.None? && d.active[MIN_PRIO] + d.expired[MIN_PRIO] == []
                else pick == Some(Pick(q[0], MIN_PRIO, false)) && d.active[MIN_PRIO] + d.expired[MIN_PRIO] == q[1..])
  {
    MinEmpty(c.active);
    MinEmpty(Settled(c).active);
    var s := Settled(c);
    assert s.expired[MIN_PRIO] == [] ==> s.active[MIN_PRIO] + s.expired[MIN_PRIO] == s.active[MIN_PRIO];
    assert c.expired[DEFAULT_PRIO] + c.justQueued == [];
    assert s.active[MIN_PRIO] != [] ==>
        s.active[MIN_PRIO][1..] + s.expired[MIN_PRIO] == (s.active[MIN_PRIO] + s.expired[MIN_PRIO])[1..];
  }

  /** With all threads at the lowest priority and no arrivals, a tick is a turn of plain round robin. */
  lemma RoundRobin(c: Cpu)
    requires AllMin(c)
    ensures AllMin(Tick(c)) && AsRing(Tick(c)) == Turn(AsRing(c))
  {
    TickInv(c);
    var d := Charged(c);
    ChargedInv(c);
    assert AllMin(d) && AsRing(d).queue == AsRing(c).queue;
    if Slicing(c) {
      MinDispatch(d);
      DispatchFacts(d);
      var (pick, e) := Dispatch(d);
      if pick.Some? {
        PickFacts(d, pick.value);
        var a, b := e.active[MIN_PRIO], e.expired[MIN_PRIO];
        assert a + (b + [d.current]) == (a + b) + [d.current];
      }
    }
  }

  function TickRun(n: nat): seq<Event> { if n == 0 then [] else [Tick_] + TickRun(n - 1) }

  lemma RunStep(c: Cpu, e: Event, rest: seq<Event>)
    requires Inv(c)
    ensures Inv(Next(c, e)) && Run(c, [e] + rest) == Run(Next(c, e), rest)
  {
    NextInv(c, e);
    assert ([e] + rest)[1..] == rest;
  }

  /** The two-queue scheduler refines a single queue over whole runs. */
  lemma RunNothing(c: Cpu)
    requires Inv(c)
    ensures Run(c, []) == c
  {
  }

  lemma MinInv(c: Cpu)
    requires AllMin(c)
    ensures Inv(c)
  {
  }

  lemma {:induction false} RefinesRoundRobin(c: Cpu, n: nat)
    requires AllMin(c)
    ensures AllMin(Run(c, TickRun(n))) && AsRing(Run(c, TickRun(n))) == Turns(AsRing(c), n)
    decreases n
  {
    hide AllMin, Inv, Tick, AsRing, Turn, Run;
    MinInv(c);
    if n == 0 {
      RunNothing(c);
    } else {
      RoundRobin(c);
      RunStep(c, Tick_, TickRun(n - 1));
      RefinesRoundRobin(Tick(c), n - 1);
    }
  }

  function Sum(s: seq<nat>): nat { if s == [] then 0 else Sum(s[..|s| - 1]) + s[|s| - 1] }

  lemma {:induction false} SumAt(s: seq<nat>, i: nat, n: nat)
    requires i < |s|
    ensures Sum(s[i := n]) == Sum(s) - s[i] + n
  {
    var l := |s| - 1;
    if i < l {
      assert s[i := n][..l] == s[..l][i := n];
      SumAt(s[..l], i, n);
    } else {
      assert s[i := n][..l] == s[..l];
    }
  }

  /** The ticks charged to all threads. */
  function Overall(procs: seq<Proc>): nat {
    if procs == [] then 0 else Overall(procs[..|procs| - 1]) + procs[|procs| - 1].overall
  }

  lemma {:induction false} OverallAt(procs: seq<Proc>, i: nat, p: Proc)
    requires i < |procs|
    ensures Overall(procs[i := p]) == Overall(procs) - procs[i].overall + p.overall
  {
    var l := |procs| - 1;
    if i < l {
      assert procs[i := p][..l] == procs[..l][i := p];
      OverallAt(procs[..l], i, p);
    } else {
      assert procs[i := p][..l] == procs[..l];
    }
  }

  /** Every tick is charged to one thread and to one of its priorities. */
  ghost predicate Accounted(c: Cpu) {
    Overall(c.procs) == c.ticks && forall t :: 0 <= t < |c.procs| ==> Sum(c.procs[t].prioMap) == c.procs[t].overall
  }

  lemma ChargedAccounted(c: Cpu)
    requires Inv(c) && Accounted(c)
    ensures Accounted(Charged(c))
  {
    hide Sum, Overall, OnePlace;
    var p := c.procs[c.current];
    SumAt(p.prioMap, c.prio, p.prioMap[c.prio] + 1);
    OverallAt(c.procs, c.current, Charged(c).procs[c.current]);
    hide Inv;
  }

  lemma SwitchedAccounted(c: Cpu, pick: Pick)
    requires c.current < |c.procs| && pick.tid < |c.procs| && |c.expired| == NR_PRIOS && c.prio < NR_PRIOS &&
             Accounted(c)
    ensures Accounted(Switched(c, pick))
  {
    var procs := c.procs[c.current := c.procs[c.current].(runtime := 0, state := Runnable)];
    OverallAt(c.procs, c.current, procs[c.current]);
    OverallAt(procs, pick.tid, procs[pick.tid].(state := OnCpu));
  }

  lemma {:induction false} ZeroSum(n: nat)
    ensures Sum(seq(n, _ => 0)) == 0
  {
    if n > 0 {
      assert seq(n, _ => 0)[..n - 1] == seq(n - 1, _ => 0);
      ZeroSum(n - 1);
    }
  }

  lemma NextAccounted(c: Cpu, e: Event)
    requires Inv(c) && Accounted(c)
    ensures Accounted(Next(c, e))
  {
    if e == Arrival {
      ZeroSum(NR_PRIOS);
      assert Enqueue(c).procs[..|c.procs|] == c.procs;
    } else {
      ChargedInv(c);
      ChargedAccounted(c);
      if Slicing(c) {
        var d := Charged(c);
        DispatchFacts(d);
        var (pick, x) := Dispatch(d);
        if pick.Some? {
          PickFacts(d, pick.value);
          SwitchedAccounted(x, pick.value);
        }
      }
    }
  }

  /** Over every run the runtimes of all threads add up to the ticks, and the ticks at each priority to the runtime. */
  lemma {:induction false} RunAccounted(c: Cpu, events: seq<Event>)
    requires Inv(c) && Accounted(c)
    ensures Accounted(Run(c, events))
    decreases |events|
  {
    if events != [] {
      NextInv(c, events[0]);
      NextAccounted(c, events[0]);
      RunAccounted(Next(c, events[0]), events[1..]);
    }
  }

  lemma BootAccounted()
    ensures Accounted(Boot())
  {
    ZeroSum(NR_PRIOS);
    assert Boot().procs[..0] == [];
  }
}
