/** The spinlocks of lib/spinlock.c as steps of any number of CPUs, each of which may be interrupted while its
    interrupt flag is set (arch/ia64/idt.c). */
module Spinlock {
  import opened Options

  /** Where a code path stands in spin_lock(), spin_trylock() or spin_unlock(); `s` is its local copy of the interrupt
      flag, `k` the position of the lock among those it holds. */
  datatype Pc =
    | Outside
    | Test(l: nat, s: bool, once: bool)
    | Retry(l: nat, s: bool)
    | Spin(l: nat, s: bool)
    | Again(l: nat, s: bool)
    | Store(l: nat, s: bool)
    | Failed(s: bool)
    | Release(k: nat, s: bool)
    | Return(s: bool, before: bool)

  /** A lock that a code path holds, and the interrupt flag before it took it. */
  datatype Held = Held(lock: nat, before: bool)

  datatype Frame = Frame(pc: Pc, held: seq<Held>)

  /** The code paths of a CPU: the last one runs, each one before it was interrupted by the next. */
  datatype Cpu = Cpu(iflag: bool, paths: seq<Frame>)

  /** Code path number `depth` of a CPU. */
  datatype Path = Path(cpu: nat, depth: nat)

  /** lock->val and lock->rflags; the owner is bookkeeping. */
  datatype Lock = Lock(val: bool, rflags: bool, owner: Option<Path>)

  datatype State = State(cpus: seq<Cpu>, locks: seq<Lock>)

  /** What a CPU does next. Begin: disable interrupts and save the flag, for spin_lock() or spin_trylock(). Unlock: read
      the saved flag of the held lock number `k`, in any order. Go: the next step of the call that is in progress.
      Toggle: code outside of critical regions switches interrupts. Interrupt and Iret: enter and leave a handler. */
  datatype Action = Begin(l: nat, once: bool) | Unlock(k: nat) | Go | Toggle(on: bool) | Interrupt | Iret

  predicate Running(s: State, c: nat) { c < |s.cpus| && s.cpus[c].paths != [] }

  function Last(cpu: Cpu): nat
    requires cpu.paths != []
  {
    |cpu.paths| - 1
  }

  function Top(cpu: Cpu): Frame
    requires cpu.paths != []
  {
    cpu.paths[Last(cpu)]
  }

  function SetTop(cpu: Cpu, f: Frame): Cpu
    requires cpu.paths != []
  {
    cpu.(paths := cpu.paths[Last(cpu) := f])
  }

  function SetPc(cpu: Cpu, pc: Pc): Cpu
    requires cpu.paths != []
  {
    SetTop(cpu, Top(cpu).(pc := pc))
  }

  predicate Enabled(s: State, c: nat, a: Action) {
    Running(s, c) &&
    var cpu := s.cpus[c];
    match a {
      case Begin(l, _) => Top(cpu).pc == Outside && l < |s.locks|
      case Unlock(k) => Top(cpu).pc == Outside && k < |Top(cpu).held|
      case Go => Top(cpu).pc != Outside
      case Toggle(_) => Top(cpu) == Frame(Outside, [])
      case Interrupt => cpu.iflag
      case Iret => Top(cpu) == Frame(Outside, []) && 1 < |cpu.paths|
    }
  }

  function With(s: State, c: nat, cpu: Cpu): State
    requires c < |s.cpus|
  {
    s.(cpus := s.cpus[c := cpu])
  }

  function SetLock(s: State, l: nat, lock: Lock): State
    requires l < |s.locks|
  {
    s.(locks := s.locks[l := lock])
  }

  /** local_irq_restore(): switches interrupts on if they were on; otherwise it does nothing. */
  function Restored(iflag: bool, f: bool): bool { f || iflag }

  function Without(held: seq<Held>, k: nat): seq<Held>
    requires k < |held|
  {
    held[..k] + held[k + 1..]
  }

  /** One step of the call in progress. */
  function Step(s: State, c: nat): State
    requires Running(s, c)
  {
    var cpu := s.cpus[c];
    match Top(cpu).pc {
      case Outside => s
      case Test(l, f, once) =>
        if l >= |s.locks| then s
        else if s.locks[l].val then With(s, c, SetPc(cpu, if once then Failed(f) else Retry(l, f)))
        else SetLock(With(s, c, SetPc(cpu, Store(l, f))), l,
                     s.locks[l].(val := true, owner := Some(Path(c, Last(cpu)))))
      case Retry(l, f) => With(s, c, SetPc(cpu, Spin(l, f)).(iflag := Restored(cpu.iflag, f)))
      case Spin(l, f) => if l >= |s.locks| || s.locks[l].val then s else With(s, c, SetPc(cpu, Again(l, f)))
      case Again(l, f) => With(s, c, SetPc(cpu, Test(l, f, false)).(iflag := false))
      case Store(l, f) =>
        if l >= |s.locks| then s
        else
          SetLock(With(s, c, SetTop(cpu, Frame(Outside, Top(cpu).held + [Held(l, f)]))), l, s.locks[l].(rflags := f))
      case Failed(f) => With(s, c, SetPc(cpu, Outside).(iflag := Restored(cpu.iflag, f)))
      case Release(k, f) =>
        if k >= |Top(cpu).held| || Top(cpu).held[k].lock >= |s.locks| then s
        else
          var h := Top(cpu).held[k];
          SetLock(With(s, c, SetTop(cpu, Frame(Return(f, h.before), Without(Top(cpu).held, k)))), h.lock,
                  s.locks[h.lock].(val := false, owner := None))
      case Return(f, _) => With(s, c, SetPc(cpu, Outside).(iflag := Restored(cpu.iflag, f)))
    }
  }

  function Next(s: State, c: nat, a: Action): State
    requires Enabled(s, c, a)
  {
    var cpu := s.cpus[c];
    match a {
      case Begin(l, once) => With(s, c, SetPc(cpu, Test(l, cpu.iflag, once)).(iflag := false))
      case Unlock(k) =>
        var l := Top(cpu).held[k].lock;
        With(s, c, SetPc(cpu, Release(k, l < |s.locks| && s.locks[l].rflags)))
      case Go => Step(s, c)
      case Toggle(on) => With(s, c, cpu.(iflag := on))
      case Interrupt => With(s, c, Cpu(false, cpu.paths + [Frame(Outside, [])]))
      case Iret => With(s, c, Cpu(true, cpu.paths[..Last(cpu)]))
    }
  }

  /** The code path has the lock: it holds it, or has just won it. */
  predicate Owns(f: Frame, l: nat) {
    (f.pc.Store? && f.pc.l == l) || exists k :: 0 <= k < |f.held| && f.held[k].lock == l
  }

  predicate IsPath(s: State, c: nat, i: nat) { c < |s.cpus| && i < |s.cpus[c].paths| }

  /** What holds of a code path whatever the order of its unlocks: its locks are different ones, and while it releases a
      lock it has the interrupt flag that it saved. */
  predicate PathOk(f: Frame, locks: nat) {
    && (forall k :: 0 <= k < |f.held| ==> f.held[k].lock < locks)
    && (forall j, k :: 0 <= j < k < |f.held| ==> f.held[j].lock != f.held[k].lock)
    && match f.pc {
         case Store(l, _) => l < locks && forall k :: 0 <= k < |f.held| ==> f.held[k].lock != l
         case Release(k, s) => k < |f.held| && s == f.held[k].before
         case Return(s, before) => s == before
         case _ => true
       }
  }

  /** The lock is taken exactly if it has an owner; only the owner has it; it keeps the owner's interrupt flag. */
  ghost predicate LockOk(s: State, l: nat)
    requires l < |s.locks|
  {
    var lock := s.locks[l];
    && lock.val == lock.owner.Some?
    && (lock.owner.Some? ==> HasLock(s, lock.owner.value.cpu, lock.owner.value.depth, l))
    && (forall c: nat, i: nat :: HasLock(s, c, i, l) ==> lock.owner == Some(Path(c, i)))
    && (forall c: nat, i: nat :: IsPath(s, c, i) ==> Saved(s.cpus[c].paths[i], l, lock.rflags))
  }

  predicate HasLock(s: State, c: nat, i: nat, l: nat) { IsPath(s, c, i) && Owns(s.cpus[c].paths[i], l) }

  /** If the code path holds the lock, `f` is the interrupt flag it saved. */
  predicate Saved(p: Frame, l: nat, f: bool) {
    forall k :: 0 <= k < |p.held| && p.held[k].lock == l ==> p.held[k].before == f
  }

  /** What every step keeps, in whatever order locks are released. */
  ghost predicate Core(s: State) {
    && (forall c :: 0 <= c < |s.cpus| ==> s.cpus[c].paths != [])
    && (forall c: nat, i: nat :: IsPath(s, c, i) ==> PathOk(s.cpus[c].paths[i], |s.locks|))
    && (forall l :: 0 <= l < |s.locks| ==> LockOk(s, l))
  }

  /** At most one code path, running or interrupted, of all CPUs has a lock. */
  lemma MutualExclusion(s: State, l: nat, c: nat, i: nat, d: nat, j: nat)
    requires Core(s) && l < |s.locks| && HasLock(s, c, i, l)
    ensures s.locks[l].val && (HasLock(s, d, j, l) ==> c == d && i == j)
  {
    assert LockOk(s, l);
  }

  /** A code path that changes no lock: the same locks, and no Store before or after. */
  predicate Alike(f: Frame, g: Frame) { g.held == f.held && (f.pc.Store? || g.pc.Store? ==> g == f) }

  predicate Bare(f: Frame) { f.held == [] && !f.pc.Store? }

  /** The code paths of a CPU after a step that neither takes nor gives up a lock. */
  predicate Quiet(p: seq<Frame>, q: seq<Frame>) {
    && (forall i :: 0 <= i < |p| && i < |q| ==> Alike(p[i], q[i]))
    && (forall i :: |q| <= i < |p| ==> Bare(p[i]))
    && (forall i :: |p| <= i < |q| ==> Bare(q[i]))
  }

  lemma QuietStep(s: State, c: nat, cpu: Cpu)
    requires Core(s) && c < |s.cpus| && cpu.paths != [] && Quiet(s.cpus[c].paths, cpu.paths)
    requires forall i :: 0 <= i < |cpu.paths| ==> PathOk(cpu.paths[i], |s.locks|)
    ensures Core(With(s, c, cpu))
  {
    var t := With(s, c, cpu);
    forall l | 0 <= l < |t.locks|
      ensures LockOk(t, l)
    {
      assert LockOk(s, l);
      QuietLock(s, c, cpu, l);
    }
    assert forall d: nat, i: nat :: IsPath(t, d, i) && d != c ==> IsPath(s, d, i);
  }

  lemma QuietLock(s: State, c: nat, cpu: Cpu, l: nat)
    requires c < |s.cpus| && Quiet(s.cpus[c].paths, cpu.paths) && l < |s.locks| && LockOk(s, l)
    ensures LockOk(With(s, c, cpu), l)
  {
    var t, lock, p, q := With(s, c, cpu), s.locks[l], s.cpus[c].paths, cpu.paths;
    forall d: nat, i: nat
      ensures HasLock(t, d, i, l) == HasLock(s, d, i, l)
      ensures IsPath(t, d, i) ==> Saved(t.cpus[d].paths[i], l, lock.rflags)
    {
      if d == c {
        assert 0 <= i < |p| && i < |q| ==> Alike(p[i], q[i]);
        assert |q| <= i < |p| ==> Bare(p[i]);
        assert |p| <= i < |q| ==> Bare(q[i]);
        assert 0 <= i < |p| ==> IsPath(s, c, i);
      } else {
        assert IsPath(t, d, i) == IsPath(s, d, i);
      }
    }
  }

  /** A step of the running code path that changes lock `l` alone: all other locks stay as they are. */
  lemma OtherLocks(s: State, t: State, c: nat, l: nat, m: nat, f: Frame)
    requires Running(s, c) && l < |s.locks| && m < |s.locks| && m != l && LockOk(s, m) && |t.locks| == |s.locks|
    requires t.cpus == s.cpus[c := SetTop(s.cpus[c], f)] && t.locks[m] == s.locks[m]
    requires Owns(f, m) == Owns(Top(s.cpus[c]), m) &&
             (Saved(Top(s.cpus[c]), m, s.locks[m].rflags) ==> Saved(f, m, s.locks[m].rflags))
    ensures LockOk(t, m)
  {
    forall d: nat, i: nat
      ensures HasLock(t, d, i, m) == HasLock(s, d, i, m)
      ensures IsPath(t, d, i) ==> Saved(t.cpus[d].paths[i], m, s.locks[m].rflags)
    {
      assert IsPath(t, d, i) == IsPath(s, d, i);
    }
  }

  /** The changed lock. */
  lemma ThisLock(s: State, t: State, c: nat, l: nat, f: Frame)
    requires Running(s, c) && l < |s.locks| && |t.locks| == |s.locks| && t.cpus == s.cpus[c := SetTop(s.cpus[c], f)]
    requires t.locks[l].val == t.locks[l].owner.Some? == Owns(f, l)
    requires t.locks[l].owner.Some? ==> t.locks[l].owner.value == Path(c, Last(s.cpus[c]))
    requires forall d: nat, i: nat :: HasLock(s, d, i, l) ==> d == c && i == Last(s.cpus[c])
    requires Saved(f, l, t.locks[l].rflags)
    ensures LockOk(t, l)
  {
    var last := Last(s.cpus[c]);
    forall d: nat, i: nat
      ensures HasLock(t, d, i, l) ==> d == c && i == last && Owns(f, l)
      ensures IsPath(t, d, i) ==> Saved(t.cpus[d].paths[i], l, t.locks[l].rflags)
    {
      assert IsPath(t, d, i) == IsPath(s, d, i);
      if IsPath(t, d, i) && !(d == c && i == last) {
        assert !HasLock(s, d, i, l);
      }
    }
    assert IsPath(t, c, last) && t.cpus[c].paths[last] == f;
  }

  lemma OneLock(s: State, t: State, c: nat, l: nat, f: Frame)
    requires Core(s) && Running(s, c) && l < |s.locks| == |t.locks| && PathOk(f, |s.locks|) && LockOk(t, l)
    requires t.cpus == s.cpus[c := SetTop(s.cpus[c], f)] && t.locks == s.locks[l := t.locks[l]]
    requires forall m: nat :: 0 <= m < |s.locks| && m != l ==> Owns(f, m) == Owns(Top(s.cpus[c]), m)
    requires forall m: nat, b :: m != l && Saved(Top(s.cpus[c]), m, b) ==> Saved(f, m, b)
    ensures Core(t)
  {
    forall m | 0 <= m < |t.locks|
      ensures LockOk(t, m)
    {
      if m != l {
        assert LockOk(s, m);
        OtherLocks(s, t, c, l, m, f);
      }
    }
    hide LockOk, PathOk;
    assert forall d: nat, i: nat :: IsPath(t, d, i) ==> IsPath(s, d, i);
  }

  /** The test-and-set that finds the lock free makes its code path the owner. */
  lemma AcquireStep(s: State, c: nat, l: nat, f: bool, once: bool)
    requires Core(s) && Running(s, c) && l < |s.locks| && !s.locks[l].val && Top(s.cpus[c]).pc == Test(l, f, once)
    ensures Core(Step(s, c))
  {
    var top, last, t := Top(s.cpus[c]), Last(s.cpus[c]), Step(s, c);
    var g := top.(pc := Store(l, f));
    assert LockOk(s, l) && IsPath(s, c, last);
    assert !HasLock(s, c, last, l) && Saved(top, l, s.locks[l].rflags);
    assert forall k :: 0 <= k < |top.held| ==> top.held[k].lock != l;
    ThisLock(s, t, c, l, g);
    OneLock(s, t, c, l, g);
  }

  /** The flag is stored in the lock once it is held. */
  lemma StoreStep(s: State, c: nat, l: nat, f: bool)
    requires Core(s) && Running(s, c) && l < |s.locks| && Top(s.cpus[c]).pc == Store(l, f)
    ensures Core(Step(s, c))
  {
    var top, last, t := Top(s.cpus[c]), Last(s.cpus[c]), Step(s, c);
    var g := Frame(Outside, top.held + [Held(l, f)]);
    assert IsPath(s, c, last) && PathOk(top, |s.locks|) && LockOk(s, l) && HasLock(s, c, last, l);
    StoreFrame(top, l, f, g);
    ThisLock(s, t, c, l, g);
    OneLock(s, t, c, l, g);
  }

  lemma StoreFrame(top: Frame, l: nat, f: bool, g: Frame)
    requires top.pc == Store(l, f) && g == Frame(Outside, top.held + [Held(l, f)])
    requires forall k :: 0 <= k < |top.held| ==> top.held[k].lock != l
    ensures Owns(g, l) && Saved(g, l, f) && forall m: nat :: m != l ==> Owns(g, m) == Owns(top, m)
    ensures forall m: nat, b :: m != l && Saved(top, m, b) ==> Saved(g, m, b)
  {
    assert g.held[|top.held|] == Held(l, f) && forall k :: 0 <= k < |top.held| ==> g.held[k] == top.held[k];
  }

  lemma WithoutFrame(top: Frame, k: nat, g: Frame)
    requires k < |top.held| && !top.pc.Store? && !g.pc.Store? && g.held == Without(top.held, k)
    requires forall i, j :: 0 <= i < j < |top.held| ==> top.held[i].lock != top.held[j].lock
    ensures forall m: nat :: Owns(g, m) == (Owns(top, m) && m != top.held[k].lock)
    ensures forall m: nat, b :: Saved(top, m, b) ==> Saved(g, m, b)
    ensures forall j :: 0 <= j < |g.held| ==> g.held[j] == top.held[if j < k then j else j + 1]
  {
    forall m: nat
      ensures Owns(g, m) == (Owns(top, m) && m != top.held[k].lock)
    {
      if Owns(top, m) && m != top.held[k].lock {
        var j :| 0 <= j < |top.held| && top.held[j].lock == m;
        assert g.held[if j < k then j else j - 1] == top.held[j];
      }
    }
  }

  /** lock->val is cleared; the flag was read before, so a new owner may overwrite the lock's copy at once. */
  lemma ReleaseStep(s: State, c: nat, k: nat, f: bool)
    requires Core(s) && Running(s, c) && Top(s.cpus[c]).pc == Release(k, f) && k < |Top(s.cpus[c]).held|
    requires Top(s.cpus[c]).held[k].lock < |s.locks|
    ensures Core(Step(s, c))
  {
    var top, last, t := Top(s.cpus[c]), Last(s.cpus[c]), Step(s, c);
    var h := top.held[k];
    var g := Frame(Return(f, h.before), Without(top.held, k));
    assert IsPath(s, c, last) && PathOk(top, |s.locks|) && LockOk(s, h.lock) && HasLock(s, c, last, h.lock);
    WithoutFrame(top, k, g);
    ThisLock(s, t, c, h.lock, g);
    OneLock(s, t, c, h.lock, g);
  }

  /** A step that changes the running code path, but none of its locks. */
  lemma TopStep(s: State, c: nat, pc: Pc, iflag: bool)
    requires Core(s) && Running(s, c) && !pc.Store? && !Top(s.cpus[c]).pc.Store?
    requires PathOk(Top(s.cpus[c]).(pc := pc), |s.locks|)
    ensures Core(With(s, c, SetPc(s.cpus[c], pc).(iflag := iflag)))
  {
    var cpu := s.cpus[c];
    assert forall i :: 0 <= i < |cpu.paths| ==> IsPath(s, c, i);
    QuietStep(s, c, SetPc(cpu, pc).(iflag := iflag));
  }

  lemma StepCore(s: State, c: nat)
    requires Core(s) && Running(s, c)
    ensures Core(Step(s, c))
  {
    hide LockOk, Owns, Without;
    var cpu := s.cpus[c];
    assert IsPath(s, c, Last(cpu)) && PathOk(Top(cpu), |s.locks|);
    hide Core;
    match Top(cpu).pc {
      case Outside =>
      case Test(l, f, once) =>
        if l < |s.locks| {
          if s.locks[l].val {
            TopStep(s, c, if once then Failed(f) else Retry(l, f), cpu.iflag);
          } else {
            AcquireStep(s, c, l, f, once);
          }
        }
      case Retry(l, f) => TopStep(s, c, Spin(l, f), Restored(cpu.iflag, f));
      case Spin(l, f) => TopStep(s, c, Again(l, f), cpu.iflag);
      case Again(l, f) => TopStep(s, c, Test(l, f, false), false);
      case Store(l, f) => StoreStep(s, c, l, f);
      case Failed(f) => TopStep(s, c, Outside, Restored(cpu.iflag, f));
      case Release(k, f) => ReleaseStep(s, c, k, f);
      case Return(f, _) => TopStep(s, c, Outside, Restored(cpu.iflag, f));
    }
  }

  /** The flag that spin_unlock() reads is the one that its code path saved, in whatever order locks are released. */
  lemma UnlockReads(s: State, c: nat, k: nat)
    requires Core(s) && Enabled(s, c, Unlock(k))
    ensures Top(Next(s, c, Unlock(k)).cpus[c]).pc == Release(k, Top(s.cpus[c]).held[k].before)
  {
    var cpu := s.cpus[c];
    assert IsPath(s, c, Last(cpu)) && PathOk(Top(cpu), |s.locks|) && LockOk(s, Top(cpu).held[k].lock);
    assert Saved(Top(cpu), Top(cpu).held[k].lock, s.locks[Top(cpu).held[k].lock].rflags);
  }

  /** Every step of every CPU keeps the core, unlocks in any order included. */
  lemma NextCore(s: State, c: nat, a: Action)
    requires Core(s) && Enabled(s, c, a)
    ensures Core(Next(s, c, a))
  {
    hide LockOk, Owns, Step;
    var cpu := s.cpus[c];
    assert forall i :: 0 <= i < |cpu.paths| ==> IsPath(s, c, i);
    assert PathOk(Top(cpu), |s.locks|);
    match a {
      case Go => StepCore(s, c);
      case Unlock(k) =>
        UnlockReads(s, c, k);
        TopStep(s, c, Release(k, Top(cpu).held[k].before), cpu.iflag);
      case Begin(l, once) => TopStep(s, c, Test(l, cpu.iflag, once), false);
      case Toggle(on) => QuietStep(s, c, cpu.(iflag := on));
      case Interrupt => QuietStep(s, c, Cpu(false, cpu.paths + [Frame(Outside, [])]));
      case Iret => QuietStep(s, c, Cpu(true, cpu.paths[..Last(cpu)]));
    }
  }

  /** A run: steps of any CPUs in any order. */
  datatype Move = Move(cpu: nat, action: Action)

  ghost predicate Runs(s: State, moves: seq<Move>, t: State)
    decreases |moves|
  {
    if moves == [] then s == t
    else Enabled(s, moves[0].cpu, moves[0].action) && Runs(Next(s, moves[0].cpu, moves[0].action), moves[1..], t)
  }

  /** Over every interleaving, and whatever the order of the unlocks, the core holds. */
  lemma {:induction false} RunCore(s: State, moves: seq<Move>, t: State)
    requires Core(s) && Runs(s, moves, t)
    ensures Core(t)
    decreases |moves|
  {
    if moves != [] {
      NextCore(s, moves[0].cpu, moves[0].action);
      RunCore(Next(s, moves[0].cpu, moves[0].action), moves[1..], t);
    }
  }

  /** The order in which locks may be released: the outermost last, unless interrupts were off before it. */
  predicate SafeOrder(held: seq<Held>, k: nat)
    requires k < |held|
  {
    k > 0 || |held| == 1 || !held[0].before
  }

  predicate SafeMove(s: State, m: Move)
    requires Enabled(s, m.cpu, m.action)
  {
    m.action.Unlock? ==> SafeOrder(Top(s.cpus[m.cpu]).held, m.action.k)
  }

  /** A run that releases locks in a safe order. */
  ghost predicate SafeRun(s: State, moves: seq<Move>)
    decreases |moves|
  {
    moves != [] ==>
      && Enabled(s, moves[0].cpu, moves[0].action) && SafeMove(s, moves[0])
      && SafeRun(Next(s, moves[0].cpu, moves[0].action), moves[1..])
  }

  /** Interrupts are off while the running code path holds a lock; nested locks were taken with interrupts off. */
  predicate QuietTop(f: Frame, iflag: bool) {
    && (forall k :: 0 < k < |f.held| ==> !f.held[k].before)
    && match f.pc {
         case Outside => f.held != [] ==> !iflag
         case Test(_, s, _) => !iflag && (f.held != [] ==> !s)
         case Retry(_, s) => !iflag && (f.held != [] ==> !s)
         case Spin(_, s) => iflag == s && (f.held != [] ==> !s)
         case Again(_, s) => iflag == s && (f.held != [] ==> !s)
         case Store(_, s) => !iflag && (f.held != [] ==> !s)
         case Failed(s) => !iflag && (f.held != [] ==> !s)
         case Release(k, _) => !iflag && k < |f.held| && SafeOrder(f.held, k)
         case Return(s, _) => !iflag && (f.held != [] ==> !s)
       }
  }

  /** An interrupted code path holds no lock, and had interrupts on. */
  predicate Waiting(f: Frame) {
    f.held == [] && (f.pc == Outside || (f.pc.Spin? && f.pc.s) || (f.pc.Again? && f.pc.s))
  }

  predicate CpuOk(cpu: Cpu) {
    cpu.paths != [] && QuietTop(Top(cpu), cpu.iflag) && forall i :: 0 <= i < Last(cpu) ==> Waiting(cpu.paths[i])
  }

  ghost predicate Inv(s: State) {
    Core(s) && forall c :: 0 <= c < |s.cpus| ==> CpuOk(s.cpus[c])
  }

  /** The holder of a lock runs, with interrupts off. */
  lemma HolderQuiet(s: State, l: nat, c: nat, i: nat)
    requires Inv(s) && HasLock(s, c, i, l)
    ensures i == Last(s.cpus[c]) && !s.cpus[c].iflag
  {
    assert CpuOk(s.cpus[c]);
    forall j | 0 <= j < Last(s.cpus[c])
      ensures !Owns(s.cpus[c].paths[j], l)
    {
      assert Waiting(s.cpus[c].paths[j]);
    }
  }

  lemma ReleaseQuiet(top: Frame, k: nat, g: Frame)
    requires QuietTop(top, false) && top.pc.Release? && top.pc.k == k < |top.held| && g.held == Without(top.held, k)
    requires g.pc.Return? && g.pc.s == top.held[k].before
    ensures QuietTop(g, false)
  {
    assert forall j :: 0 <= j < |g.held| ==> g.held[j] == top.held[if j < k then j else j + 1];
  }

  /** What a step makes of the interrupt flag and the code paths of its CPU. */
  lemma StepCpu(s: State, c: nat)
    requires Core(s) && Running(s, c) && CpuOk(s.cpus[c])
    ensures |Step(s, c).cpus| == |s.cpus| && CpuOk(Step(s, c).cpus[c])
    ensures forall d :: 0 <= d < |s.cpus| && d != c ==> Step(s, c).cpus[d] == s.cpus[d]
  {
    var cpu := s.cpus[c];
    assert IsPath(s, c, Last(cpu)) && PathOk(Top(cpu), |s.locks|);
    hide Core;
    if Top(cpu).pc.Release? {
      var k := Top(cpu).pc.k;
      ReleaseQuiet(Top(cpu), k, Frame(Return(Top(cpu).pc.s, Top(cpu).held[k].before), Without(Top(cpu).held, k)));
    }
  }

  /** Every step that releases in a safe order keeps interrupts off wherever a lock is held. */
  lemma NextInv(s: State, m: Move)
    requires Inv(s) && Enabled(s, m.cpu, m.action) && SafeMove(s, m)
    ensures Inv(Next(s, m.cpu, m.action))
  {
    var cpu := s.cpus[m.cpu];
    NextCore(s, m.cpu, m.action);
    assert CpuOk(cpu);
    NextCpu(s, m);
    hide Core, Next, CpuOk, SafeMove;
    var t := Next(s, m.cpu, m.action);
    forall d | 0 <= d < |t.cpus|
      ensures CpuOk(t.cpus[d])
    {
      assert d != m.cpu ==> CpuOk(s.cpus[d]);
    }
  }

  lemma NextCpu(s: State, m: Move)
    requires Core(s) && Enabled(s, m.cpu, m.action) && SafeMove(s, m) && CpuOk(s.cpus[m.cpu])
    ensures var t := Next(s, m.cpu, m.action);
            && |t.cpus| == |s.cpus| && CpuOk(t.cpus[m.cpu])
            && forall d :: 0 <= d < |s.cpus| && d != m.cpu ==> t.cpus[d] == s.cpus[d]
  {
    match m.action {
      case Go => StepCpu(s, m.cpu);
      case Unlock(k) => UnlockReads(s, m.cpu, k);
      case _ =>
    }
  }

  /** Over every interleaving that releases locks in a safe order the invariant holds. */
  lemma {:induction false} RunInv(s: State, moves: seq<Move>, t: State)
    requires Inv(s) && Runs(s, moves, t) && SafeRun(s, moves)
    ensures Inv(t)
    decreases |moves|
  {
    if moves != [] {
      NextInv(s, moves[0]);
      RunInv(Next(s, moves[0].cpu, moves[0].action), moves[1..], t);
    }
  }

  /** All locks are free and no code path is in a call. */
  predicate Initial(s: State) {
    && (forall c :: 0 <= c < |s.cpus| ==> s.cpus[c].paths == [Frame(Outside, [])])
    && (forall l :: 0 <= l < |s.locks| ==> !s.locks[l].val && s.locks[l].owner == None)
  }

  lemma InitialInv(s: State)
    requires Initial(s)
    ensures Inv(s)
  {
    forall l | 0 <= l < |s.locks|
      ensures LockOk(s, l)
    {
      assert forall c: nat, i: nat :: !HasLock(s, c, i, l);
    }
  }

  /** The last step of an unlock switches interrupts on if they were on before the lock was taken, whatever other CPUs
      did to the lock since; and in a run with safe orders it restores the flag exactly. */
  lemma UnlockRestores(s: State, c: nat)
    requires Core(s) && Running(s, c) && Top(s.cpus[c]).pc.Return?
    ensures Step(s, c).cpus[c].iflag == (Top(s.cpus[c]).pc.before || s.cpus[c].iflag)
    ensures Inv(s) ==> Step(s, c).cpus[c].iflag == Top(s.cpus[c]).pc.before
  {
    assert IsPath(s, c, Last(s.cpus[c])) && PathOk(Top(s.cpus[c]), |s.locks|);
    if Inv(s) {
      assert CpuOk(s.cpus[c]);
    }
  }

  /** A failed trylock leaves the interrupt flag as it was. */
  lemma TrylockRestores(s: State, c: nat)
    requires Inv(s) && Running(s, c) && Top(s.cpus[c]).pc.Failed?
    ensures Step(s, c).cpus[c].iflag == Top(s.cpus[c]).pc.s && Top(Step(s, c).cpus[c]).held == Top(s.cpus[c]).held
  {
    assert CpuOk(s.cpus[c]);
  }

  /** Last-in-first-out release is always a safe order. */
  lemma LastInFirstOut(held: seq<Held>)
    requires held != []
    ensures SafeOrder(held, |held| - 1)
  {
  }

  /** The three steps of spin_unlock() for the held lock number `k`. */
  function UnlockMoves(c: nat, k: nat): seq<Move> { [Move(c, Unlock(k)), Move(c, Go), Move(c, Go)] }

  /** The state that they lead to. */
  function Unlocked(s: State, c: nat, k: nat): State
    requires Running(s, c) && k < |Top(s.cpus[c]).held| && Top(s.cpus[c]).held[k].lock < |s.locks|
  {
    var cpu := s.cpus[c];
    var h := Top(cpu).held[k];
    SetLock(With(s, c, Cpu(Restored(cpu.iflag, h.before),
                           cpu.paths[Last(cpu) := Frame(Outside, Without(Top(cpu).held, k))])),
            h.lock, s.locks[h.lock].(val := false, owner := None))
  }

  lemma UnlockRuns(s: State, c: nat, k: nat)
    requires Core(s) && Running(s, c) && Top(s.cpus[c]).pc == Outside && k < |Top(s.cpus[c]).held|
    ensures Top(s.cpus[c]).held[k].lock < |s.locks| && Runs(s, UnlockMoves(c, k), Unlocked(s, c, k))
  {
    var cpu := s.cpus[c];
    assert IsPath(s, c, Last(cpu)) && PathOk(Top(cpu), |s.locks|);
    UnlockReads(s, c, k);
    hide Core, PathOk;
    var h, rest := Top(cpu).held[k], Without(Top(cpu).held, k);
    var s1 := With(s, c, SetPc(cpu, Release(k, h.before)));
    var s2 := SetLock(With(s, c, SetTop(cpu, Frame(Return(h.before, h.before), rest))), h.lock,
                      s.locks[h.lock].(val := false, owner := None));
    assert Next(s, c, Unlock(k)) == s1;
    GoRelease(s, c, k, h, s1, s2);
    GoReturn(s, c, k, h, s2);
    hide Unlocked, Next, Enabled;
    RunsThree(s, UnlockMoves(c, k), s1, s2, Unlocked(s, c, k));
  }

  lemma GoRelease(s: State, c: nat, k: nat, h: Held, s1: State, s2: State)
    requires Running(s, c) && k < |Top(s.cpus[c]).held| && h == Top(s.cpus[c]).held[k] && h.lock < |s.locks|
    requires s1 == With(s, c, SetPc(s.cpus[c], Release(k, h.before)))
    requires s2 == SetLock(With(s, c,
                                SetTop(s.cpus[c], Frame(Return(h.before, h.before), Without(Top(s.cpus[c]).held, k)))),
                           h.lock, s.locks[h.lock].(val := false, owner := None))
    ensures Enabled(s1, c, Go) && Next(s1, c, Go) == s2
  {
    var cpu := s.cpus[c];
    var f1, f2 := Top(cpu).(pc := Release(k, h.before)), Frame(Return(h.before, h.before), Without(Top(cpu).held, k));
    Twice(cpu.paths, Last(cpu), f1, f2);
    Twice(s.cpus, c, SetTop(cpu, f1), SetTop(cpu, f2));
  }

  lemma GoReturn(s: State, c: nat, k: nat, h: Held, s2: State)
    requires Running(s, c) && k < |Top(s.cpus[c]).held| && h == Top(s.cpus[c]).held[k] && h.lock < |s.locks|
    requires s2 == SetLock(With(s, c,
                                SetTop(s.cpus[c], Frame(Return(h.before, h.before), Without(Top(s.cpus[c]).held, k)))),
                           h.lock, s.locks[h.lock].(val := false, owner := None))
    ensures Enabled(s2, c, Go) && Next(s2, c, Go) == Unlocked(s, c, k)
  {
    var cpu, rest := s.cpus[c], Without(Top(s.cpus[c]).held, k);
    hide Without;
    Twice(cpu.paths, Last(cpu), Frame(Return(h.before, h.before), rest), Frame(Outside, rest));
    Twice(s.cpus, c, SetTop(cpu, Frame(Return(h.before, h.before), rest)), Unlocked(s, c, k).cpus[c]);
  }

  lemma Twice<T>(q: seq<T>, i: nat, a: T, b: T)
    requires i < |q|
    ensures q[i := a][i := b] == q[i := b]
  {
  }

  lemma RunsThree(s: State, moves: seq<Move>, s1: State, s2: State, s3: State)
    requires |moves| == 3 && Enabled(s, moves[0].cpu, moves[0].action) && s1 == Next(s, moves[0].cpu, moves[0].action)
    requires Enabled(s1, moves[1].cpu, moves[1].action) && s2 == Next(s1, moves[1].cpu, moves[1].action)
    requires Enabled(s2, moves[2].cpu, moves[2].action) && s3 == Next(s2, moves[2].cpu, moves[2].action)
    ensures Runs(s, moves, s3)
  {
    hide Enabled, Next;
    assert moves[1..][0] == moves[1] && moves[1..][1..] == moves[2..] && moves[2..][0] == moves[2] &&
           moves[2..][1..] == [];
    assert Runs(s3, [], s3);
    assert Runs(s2, moves[2..], s3);
    assert Runs(s1, moves[1..], s3);
  }

  /** An unlock in the middle of a safe run leaves a state in order if and only if its order is safe. Otherwise the code
      path holds its remaining locks with interrupts on. */
  lemma SafeOrderExactly(s: State, c: nat, k: nat)
    requires Inv(s) && Running(s, c) && Top(s.cpus[c]).pc == Outside && k < |Top(s.cpus[c]).held|
    ensures Top(s.cpus[c]).held[k].lock < |s.locks| && Runs(s, UnlockMoves(c, k), Unlocked(s, c, k))
    ensures Inv(Unlocked(s, c, k)) <==> SafeOrder(Top(s.cpus[c]).held, k)
    ensures !SafeOrder(Top(s.cpus[c]).held, k) ==>
              Top(Unlocked(s, c, k).cpus[c]).held != [] && Unlocked(s, c, k).cpus[c].iflag
  {
    UnlockRuns(s, c, k);
    RunCore(s, UnlockMoves(c, k), Unlocked(s, c, k));
    UnlockedCpu(s, c, k);
  }

  lemma UnlockedCpu(s: State, c: nat, k: nat)
    requires Inv(s) && Running(s, c) && Top(s.cpus[c]).pc == Outside && k < |Top(s.cpus[c]).held|
    requires Top(s.cpus[c]).held[k].lock < |s.locks| && Core(Unlocked(s, c, k))
    ensures Inv(Unlocked(s, c, k)) <==> SafeOrder(Top(s.cpus[c]).held, k)
    ensures !SafeOrder(Top(s.cpus[c]).held, k) ==>
              Top(Unlocked(s, c, k).cpus[c]).held != [] && Unlocked(s, c, k).cpus[c].iflag
  {
    var t, held := Unlocked(s, c, k), Top(s.cpus[c]).held;
    assert CpuOk(s.cpus[c]);
    hide Core;
    var rest := Without(held, k);
    assert forall j :: 0 <= j < |rest| ==> rest[j] == held[if j < k then j else j + 1];
    assert forall d :: 0 <= d < |t.cpus| && d != c ==> t.cpus[d] == s.cpus[d] && CpuOk(s.cpus[d]);
    assert CpuOk(t.cpus[c]) <==> SafeOrder(held, k);
  }

  /** One CPU with interrupts on and two free locks. */
  function Fresh(): State {
    State([Cpu(true, [Frame(Outside, [])])], [Lock(false, false, None), Lock(false, false, None)])
  }

  /** Both locks taken, one inside the other. */
  function Nested(): State {
    State([Cpu(false, [Frame(Outside, [Held(0, true), Held(1, false)])])],
          [Lock(true, true, Some(Path(0, 0))), Lock(true, false, Some(Path(0, 0)))])
  }

  function OneTaken(): State {
    State([Cpu(false, [Frame(Outside, [Held(0, true)])])],
          [Lock(true, true, Some(Path(0, 0))), Lock(false, false, None)])
  }

  function LockMoves(l: nat): seq<Move> { [Move(0, Begin(l, false)), Move(0, Go), Move(0, Go)] }

  lemma Singles(a: seq<Frame>, b: seq<Frame>, c: seq<Frame>)
    requires |a| == |b| == |c| == 1
    ensures a[0 := b[0]] == b && b[0 := c[0]] == c && forall f :: c[0 := f] == [f]
  {
  }

  lemma TakesFirst()
    ensures Initial(Fresh()) && Runs(Fresh(), LockMoves(0), OneTaken())
  {
    var s := Fresh();
    var s1 := State([Cpu(false, [Frame(Test(0, true, false), [])])], s.locks);
    var s2 := State([Cpu(false, [Frame(Store(0, true), [])])], [Lock(true, false, Some(Path(0, 0))), s.locks[1]]);
    Singles(s.cpus[0].paths, s1.cpus[0].paths, s2.cpus[0].paths);
    assert Next(s, 0, Begin(0, false)).cpus[0] == s1.cpus[0];
    assert Next(s, 0, Begin(0, false)) == s1;
    assert Next(s1, 0, Go).cpus[0] == s2.cpus[0];
    assert Next(s1, 0, Go) == s2;
    assert Next(s2, 0, Go).cpus[0].paths[0] == Frame(Outside, [Held(0, true)]);
    assert Next(s2, 0, Go).cpus[0] == OneTaken().cpus[0];
    assert Next(s2, 0, Go) == OneTaken();
    RunsThree(s, LockMoves(0), s1, s2, OneTaken());
  }

  lemma TakesSecond()
    ensures Runs(OneTaken(), LockMoves(1), Nested())
  {
    var s := OneTaken();
    var held := [Held(0, true)];
    var s1 := State([Cpu(false, [Frame(Test(1, false, false), held)])], s.locks);
    var s2 := State([Cpu(false, [Frame(Store(1, false), held)])], [s.locks[0], Lock(true, false, Some(Path(0, 0)))]);
    Singles(s.cpus[0].paths, s1.cpus[0].paths, s2.cpus[0].paths);
    assert Next(s, 0, Begin(1, false)).cpus[0] == s1.cpus[0];
    assert Next(s, 0, Begin(1, false)) == s1;
    assert Next(s1, 0, Go).cpus[0] == s2.cpus[0];
    assert Next(s1, 0, Go) == s2;
    assert Next(s2, 0, Go).cpus[0].paths[0] == Frame(Outside, [Held(0, true), Held(1, false)]);
    assert Next(s2, 0, Go).cpus[0] == Nested().cpus[0];
    assert Next(s2, 0, Go) == Nested();
    RunsThree(s, LockMoves(1), s1, s2, Nested());
  }

  lemma {:induction false} RunsConcat(s: State, a: seq<Move>, t: State, b: seq<Move>, u: State)
    requires Runs(s, a, t) && Runs(t, b, u)
    ensures Runs(s, a + b, u)
    decreases |a|
  {
    if a == [] {
      assert a + b == b;
    } else {
      RunsConcat(Next(s, a[0].cpu, a[0].action), a[1..], t, b, u);
      assert (a + b)[1..] == a[1..] + b;
    }
  }

  /** A run from the start that takes two locks and releases the outer one first: then the inner one is held with
      interrupts on. */
  lemma OutermostFirst() returns (moves: seq<Move>, t: State)
    ensures Initial(Fresh()) && Runs(Fresh(), moves, t) && t.cpus == [Cpu(true, [Frame(Outside, [Held(1, false)])])]
    ensures HasLock(t, 0, 0, 1) && t.cpus[0].iflag && !Inv(t)
  {
    hide Runs, Core, LockMoves, Fresh, OneTaken, UnlockMoves;
    TakesFirst();
    TakesSecond();
    moves := LockMoves(0) + LockMoves(1);
    RunsConcat(Fresh(), LockMoves(0), OneTaken(), LockMoves(1), Nested());
    InitialInv(Fresh());
    RunCore(Fresh(), moves, Nested());
    UnlockRuns(Nested(), 0, 0);
    t := Unlocked(Nested(), 0, 0);
    RunsConcat(Fresh(), moves, Nested(), UnlockMoves(0, 0), t);
    moves := moves + UnlockMoves(0, 0);
    OuterFree(t);
  }

  lemma OuterFree(t: State)
    requires t == Unlocked(Nested(), 0, 0)
    ensures t.cpus == [Cpu(true, [Frame(Outside, [Held(1, false)])])] && HasLock(t, 0, 0, 1) && !Inv(t)
  {
    hide Core;
    var held := [Held(0, true), Held(1, false)];
    assert Without(held, 0) == [Held(1, false)];
    assert t.cpus[0].paths == [Frame(Outside, [Held(1, false)])];
    assert t.cpus[0] == Cpu(true, [Frame(Outside, [Held(1, false)])]);
    assert Top(t.cpus[0]).held[0].lock == 1 && !CpuOk(t.cpus[0]);
  }
}
