/** What the calls of lib/spinlock.c return, over every run of all CPUs: spin_lock() only with the lock, spin_trylock()
    after one test. */
module SpinlockCalls {
  import opened Spinlock

  predicate InCall(s: State, c: nat, i: nat) { IsPath(s, c, i) && s.cpus[c].paths[i].pc != Outside }

  /** A run of all CPUs up to the first state in which code path `i` of CPU `c` is out of its call, or a part of it. */
  ghost predicate During(s: State, moves: seq<Move>, t: State, c: nat, i: nat)
    decreases |moves|
  {
    if moves == [] then s == t
    else
      && InCall(s, c, i) && Enabled(s, moves[0].cpu, moves[0].action)
      && During(Next(s, moves[0].cpu, moves[0].action), moves[1..], t, c, i)
  }

  /** A code path in or just behind spin_lock(): the lock and the flag it saved are those of the call, nothing else is
      taken, and it is out only with the lock. Interrupts are off except while it spins; then they are as before. */
  predicate Locking(cpu: Cpu, i: nat, held: seq<Held>, l: nat, f: bool) {
    && i < |cpu.paths|
    && var pc := cpu.paths[i].pc;
    && cpu.paths[i].held == (if pc == Outside then held + [Held(l, f)] else held)
    && (pc in {Outside, Test(l, f, false), Retry(l, f), Spin(l, f), Again(l, f), Store(l, f)})
    && (!pc.Spin? && !pc.Again? ==> i == Last(cpu) && !cpu.iflag)
    && (pc.Spin? || pc.Again? ==> if i == Last(cpu) then cpu.iflag == f else f)
  }

  lemma LockingGo(s: State, c: nat, i: nat, held: seq<Held>, l: nat, f: bool)
    requires Running(s, c) && Locking(s.cpus[c], i, held, l, f) && InCall(s, c, i) && l < |s.locks|
    ensures |Step(s, c).cpus| == |s.cpus| && |Step(s, c).locks| == |s.locks|
    ensures Locking(Step(s, c).cpus[c], i, held, l, f)
  {
    if i < Last(s.cpus[c]) {
      BelowTop(s, c, i);
      hide Step;
    } else {
      hide Without;
    }
  }

  /** A step leaves the interrupted code paths of its CPU alone. */
  lemma BelowTop(s: State, c: nat, i: nat)
    requires Running(s, c) && i < Last(s.cpus[c])
    ensures var t := Step(s, c);
            && |t.cpus| == |s.cpus| && |t.locks| == |s.locks| && |t.cpus[c].paths| == |s.cpus[c].paths|
            && t.cpus[c].paths[i] == s.cpus[c].paths[i]
  {
  }

  lemma LockingNext(s: State, m: Move, c: nat, i: nat, held: seq<Held>, l: nat, f: bool)
    requires Enabled(s, m.cpu, m.action) && c < |s.cpus| && l < |s.locks|
    requires Locking(s.cpus[c], i, held, l, f) && InCall(s, c, i)
    ensures var t := Next(s, m.cpu, m.action);
            c < |t.cpus| && l < |t.locks| && Locking(t.cpus[c], i, held, l, f)
  {
    if m.cpu == c && m.action == Go {
      LockingGo(s, c, i, held, l, f);
    }
  }

  lemma {:induction false} LockingRun(s: State, moves: seq<Move>, t: State, c: nat, i: nat, held: seq<Held>, l: nat,
                                      f: bool)
    requires c < |s.cpus| && l < |s.locks| && Locking(s.cpus[c], i, held, l, f) && During(s, moves, t, c, i)
    ensures c < |t.cpus| && l < |t.locks| && Locking(t.cpus[c], i, held, l, f)
    decreases |moves|
  {
    if moves != [] {
      LockingNext(s, moves[0], c, i, held, l, f);
      LockingRun(Next(s, moves[0].cpu, moves[0].action), moves[1..], t, c, i, held, l, f);
    }
  }

  lemma LockingBegin(s: State, c: nat, l: nat)
    requires Enabled(s, c, Begin(l, false))
    ensures var u, top := Next(s, c, Begin(l, false)), Top(s.cpus[c]);
            |u.cpus| == |s.cpus| && |u.locks| == |s.locks| &&
            Locking(u.cpus[c], Last(s.cpus[c]), top.held, l, s.cpus[c].iflag)
  {
  }

  /** Over every run, a code path that called spin_lock() and is out of the call holds the lock besides what it held
      before, runs with interrupts off, and is the only one that has the lock. */
  lemma LockReturns(s: State, c: nat, l: nat, moves: seq<Move>, t: State)
    requires Core(s) && Enabled(s, c, Begin(l, false))
    requires During(Next(s, c, Begin(l, false)), moves, t, c, Last(s.cpus[c])) && !InCall(t, c, Last(s.cpus[c]))
    ensures c < |t.cpus| && |t.cpus[c].paths| == |s.cpus[c].paths| && !t.cpus[c].iflag
    ensures Top(t.cpus[c]) == Frame(Outside, Top(s.cpus[c]).held + [Held(l, s.cpus[c].iflag)])
    ensures Core(t) && l < |t.locks| && t.locks[l].val
    ensures forall d: nat, j: nat :: HasLock(t, d, j, l) ==> d == c && j == Last(s.cpus[c])
  {
    var i, held, f := Last(s.cpus[c]), Top(s.cpus[c]).held, s.cpus[c].iflag;
    var u := Next(s, c, Begin(l, false));
    NextCore(s, c, Begin(l, false));
    DuringRuns(u, moves, t, c, i);
    RunCore(u, moves, t);
    LockingBegin(s, c, l);
    LockingRun(u, moves, t, c, i, held, l, f);
    hide Core, LockOk, During, Next;
    assert Top(t.cpus[c]).held[|held|] == Held(l, f);
    assert HasLock(t, c, i, l);
    forall d: nat, j: nat | HasLock(t, d, j, l)
      ensures d == c && j == i
    {
      MutualExclusion(t, l, c, i, d, j);
    }
    MutualExclusion(t, l, c, i, c, i);
  }

  lemma {:induction false} DuringRuns(s: State, moves: seq<Move>, t: State, c: nat, i: nat)
    requires During(s, moves, t, c, i)
    ensures Runs(s, moves, t)
    decreases |moves|
  {
    if moves != [] {
      DuringRuns(Next(s, moves[0].cpu, moves[0].action), moves[1..], t, c, i);
    }
  }

  /** A CPU takes `n` steps of the call in progress. */
  function Steps(s: State, c: nat, n: nat): State
    requires Running(s, c)
    decreases n
  {
    if n == 0 then s
    else
      StepRuns(s, c);
      Steps(Step(s, c), c, n - 1)
  }

  lemma StepRuns(s: State, c: nat)
    requires Running(s, c)
    ensures Running(Step(s, c), c)
  {
  }

  /** Wherever spin_lock() is in its call, once its code path runs and the lock is free it is out of the call within
      five steps. */
  lemma LockProgress(s: State, c: nat, l: nat, moves: seq<Move>, t: State)
    requires Enabled(s, c, Begin(l, false))
    requires During(Next(s, c, Begin(l, false)), moves, t, c, Last(s.cpus[c]))
    requires InCall(t, c, Last(s.cpus[c])) && |t.cpus[c].paths| == |s.cpus[c].paths| && l < |t.locks| && !t.locks[l].val
    ensures Running(t, c) && exists n :: 0 < n <= 5 && !InCall(Steps(t, c, n), c, Last(s.cpus[c]))
  {
    LockingBegin(s, c, l);
    LockingRun(Next(s, c, Begin(l, false)), moves, t, c, Last(s.cpus[c]), Top(s.cpus[c]).held, l, s.cpus[c].iflag);
    hide During, Next;
    var n := Finishes(t, c, Top(s.cpus[c]).held, l, s.cpus[c].iflag);
  }

  /** The steps of spin_lock() that are left, if none of them finds the lock taken. */
  function ToGo(pc: Pc): nat {
    match pc {
      case Retry(_, _) => 5
      case Spin(_, _) => 4
      case Again(_, _) => 3
      case Test(_, _, _) => 2
      case Store(_, _) => 1
      case _ => 0
    }
  }

  lemma FewerToGo(s: State, c: nat, held: seq<Held>, l: nat, f: bool)
    requires Running(s, c) && l < |s.locks| && Locking(s.cpus[c], Last(s.cpus[c]), held, l, f)
    requires Top(s.cpus[c]).pc != Outside && (s.locks[l].val ==> Top(s.cpus[c]).pc.Store?)
    ensures var t := Step(s, c);
            && Running(t, c) && l < |t.locks| && |t.cpus[c].paths| == |s.cpus[c].paths|
            && ToGo(Top(t.cpus[c]).pc) + 1 == ToGo(Top(s.cpus[c]).pc)
            && (t.locks[l].val ==> Top(t.cpus[c]).pc.Store? || Top(t.cpus[c]).pc == Outside)
  {
    hide Without;
  }

  lemma {:induction false} Finishes(s: State, c: nat, held: seq<Held>, l: nat, f: bool) returns (n: nat)
    requires Running(s, c) && l < |s.locks| && Locking(s.cpus[c], Last(s.cpus[c]), held, l, f)
    requires Top(s.cpus[c]).pc != Outside && (s.locks[l].val ==> Top(s.cpus[c]).pc.Store?)
    ensures 0 < n <= ToGo(Top(s.cpus[c]).pc) <= 5 && !InCall(Steps(s, c, n), c, Last(s.cpus[c]))
    decreases ToGo(Top(s.cpus[c]).pc)
  {
    LockingGo(s, c, Last(s.cpus[c]), held, l, f);
    FewerToGo(s, c, held, l, f);
    hide Step, Locking;
    var t := Step(s, c);
    if Top(t.cpus[c]).pc == Outside {
      n := 1;
      assert Steps(t, c, 0) == t;
    } else {
      var m := Finishes(t, c, held, l, f);
      n := m + 1;
    }
  }

  /** How far spin_trylock() is after `own` steps of its CPU: at its test, at its answer, and out; with interrupts off
      until it is out, so that nothing comes between. */
  predicate Trying(cpu: Cpu, i: nat, held: seq<Held>, l: nat, f: bool, own: nat) {
    && |cpu.paths| == i + 1
    && match own {
         case 0 => cpu.paths[i] == Frame(Test(l, f, true), held) && !cpu.iflag
         case 1 => cpu.paths[i] in {Frame(Store(l, f), held), Frame(Failed(f), held)} && !cpu.iflag
         case _ => own == 2 && cpu.paths[i] in {Frame(Outside, held), Frame(Outside, held + [Held(l, f)])}
       }
  }

  lemma TryingNext(s: State, m: Move, c: nat, i: nat, held: seq<Held>, l: nat, f: bool, own: nat)
    requires Enabled(s, m.cpu, m.action) && c < |s.cpus| && l < |s.locks|
    requires Trying(s.cpus[c], i, held, l, f, own) && InCall(s, c, i)
    ensures var t := Next(s, m.cpu, m.action);
            && c < |t.cpus| && l < |t.locks| && (m.cpu == c ==> m.action == Go)
            && Trying(t.cpus[c], i, held, l, f, if m.cpu == c then own + 1 else own)
            && (m.cpu != c ==> t.cpus[c] == s.cpus[c])
  {
    hide Without;
  }

  lemma {:induction false} TryingRun(s: State, moves: seq<Move>, t: State, c: nat, i: nat, held: seq<Held>, l: nat,
                                     f: bool, own: nat)
    requires c < |s.cpus| && l < |s.locks| && Trying(s.cpus[c], i, held, l, f, own) && During(s, moves, t, c, i)
    ensures c < |t.cpus| && l < |t.locks| && Trying(t.cpus[c], i, held, l, f, own + Own(moves, c))
    decreases |moves|
  {
    if moves != [] {
      TryingNext(s, moves[0], c, i, held, l, f, own);
      var n := if moves[0].cpu == c then own + 1 else own;
      TryingRun(Next(s, moves[0].cpu, moves[0].action), moves[1..], t, c, i, held, l, f, n);
    }
  }

  /** Over every run, spin_trylock() is out of its call with the second step that its CPU takes. */
  lemma TrylockReturns(s: State, c: nat, l: nat, moves: seq<Move>, t: State)
    requires Enabled(s, c, Begin(l, true)) && During(Next(s, c, Begin(l, true)), moves, t, c, Last(s.cpus[c]))
    ensures Own(moves, c) <= 2 && (InCall(t, c, Last(s.cpus[c])) <==> Own(moves, c) < 2)
  {
    TryingRun(Next(s, c, Begin(l, true)), moves, t, c, Last(s.cpus[c]), Top(s.cpus[c]).held, l, s.cpus[c].iflag, 0);
  }

  /** Other CPUs do not move a CPU. */
  lemma {:induction false} OthersRun(s: State, moves: seq<Move>, t: State, c: nat)
    requires Runs(s, moves, t) && Own(moves, c) == 0 && c < |s.cpus|
    ensures |t.cpus| == |s.cpus| && t.cpus[c] == s.cpus[c] && |t.locks| == |s.locks|
    decreases |moves|
  {
    if moves != [] {
      OtherMoves(s, moves[0], c);
      OthersRun(Next(s, moves[0].cpu, moves[0].action), moves[1..], t, c);
    }
  }

  lemma OtherMoves(s: State, m: Move, c: nat)
    requires Enabled(s, m.cpu, m.action) && m.cpu != c && c < |s.cpus|
    ensures var t := Next(s, m.cpu, m.action);
            |t.cpus| == |s.cpus| && t.cpus[c] == s.cpus[c] && |t.locks| == |s.locks|
  {
    hide Without;
  }

  /** The answer of spin_trylock(), with any steps of other CPUs before its test (`u` is the state there) and between
      the test and the last step: the lock, exactly if it was free at the test; interrupts are off with the lock, and as
      before without it. */
  lemma TrylockAnswers(s: State, c: nat, l: nat, a: seq<Move>, u: State, b: seq<Move>, w: State)
    requires Enabled(s, c, Begin(l, true)) && Runs(Next(s, c, Begin(l, true)), a, u) && Own(a, c) == 0
    requires Enabled(u, c, Go) && Runs(Next(u, c, Go), b, w) && Own(b, c) == 0 && Enabled(w, c, Go)
    ensures l < |u.locks|
    ensures var t, free := Next(w, c, Go), !u.locks[l].val;
            && c < |t.cpus| && |t.cpus[c].paths| == |s.cpus[c].paths|
            && Top(t.cpus[c]) ==
               Frame(Outside, Top(s.cpus[c]).held + if free then [Held(l, s.cpus[c].iflag)] else [])
            && t.cpus[c].iflag == (!free && s.cpus[c].iflag)
  {
    var held := Top(s.cpus[c]).held;
    OthersRun(Next(s, c, Begin(l, true)), a, u, c);
    OthersRun(Next(u, c, Go), b, w, c);
    assert held + [] == held;
    hide Without, Runs;
  }

  /** spin_unlock() of the held lock number `k`, with any steps of other CPUs in between: its first step makes the lock
      free, and with the second one it is out of the call without the lock; interrupts are on if they were on before the
      lock was taken. */
  lemma UnlockReturns(s: State, c: nat, k: nat, a: seq<Move>, u: State, b: seq<Move>, w: State)
    requires Core(s) && Enabled(s, c, Unlock(k)) && Runs(Next(s, c, Unlock(k)), a, u) && Own(a, c) == 0
    requires Enabled(u, c, Go) && Runs(Next(u, c, Go), b, w) && Own(b, c) == 0 && Enabled(w, c, Go)
    ensures var v, t, held := Next(u, c, Go), Next(w, c, Go), Top(s.cpus[c]).held;
            && held[k].lock < |v.locks| && !v.locks[held[k].lock].val
            && c < |t.cpus| && |t.cpus[c].paths| == |s.cpus[c].paths|
            && Top(t.cpus[c]) == Frame(Outside, held[..k] + held[k + 1..])
            && t.cpus[c].iflag == (held[k].before || s.cpus[c].iflag)
  {
    var cpu := s.cpus[c];
    UnlockReads(s, c, k);
    assert IsPath(s, c, Last(cpu)) && PathOk(Top(cpu), |s.locks|);
    assert Next(s, c, Unlock(k)).cpus[c].iflag == cpu.iflag;
    assert Top(Next(s, c, Unlock(k)).cpus[c]) == Frame(Release(k, Top(cpu).held[k].before), Top(cpu).held);
    hide Core;
    OthersRun(Next(s, c, Unlock(k)), a, u, c);
    ReleaseGo(u, c);
    OthersRun(Next(u, c, Go), b, w, c);
    hide Next, Runs, PathOk;
    ReturnGo(w, c);
  }

  lemma ReleaseGo(s: State, c: nat)
    requires Running(s, c) && Top(s.cpus[c]).pc.Release?
    requires var f := Top(s.cpus[c]); f.pc.k < |f.held| && f.held[f.pc.k].lock < |s.locks|
    ensures var t, f := Next(s, c, Go), Top(s.cpus[c]);
            && |t.cpus| == |s.cpus| && |t.locks| == |s.locks| && !t.locks[f.held[f.pc.k].lock].val
            && |t.cpus[c].paths| == |s.cpus[c].paths| && t.cpus[c].iflag == s.cpus[c].iflag
            && Top(t.cpus[c]) ==
               Frame(Return(f.pc.s, f.held[f.pc.k].before), f.held[..f.pc.k] + f.held[f.pc.k + 1..])
  {
  }

  lemma ReturnGo(s: State, c: nat)
    requires Running(s, c) && Top(s.cpus[c]).pc.Return?
    ensures var t, f := Next(s, c, Go), Top(s.cpus[c]);
            && |t.cpus| == |s.cpus| && |t.cpus[c].paths| == |s.cpus[c].paths|
            && Top(t.cpus[c]) == Frame(Outside, f.held) && t.cpus[c].iflag == (f.pc.s || s.cpus[c].iflag)
  {
  }

  /** How many moves of a run CPU `c` makes. */
  function Own(moves: seq<Move>, c: nat): nat {
    if moves == [] then 0 else Own(moves[1..], c) + if moves[0].cpu == c then 1 else 0
  }
}
