/** Semaphores and locks on top of the thread system (kern/thread/synch.c), as a
    transition system. Each section with interrupts off is one event, cut where
    the processor is given up: the wait loops of P and lock_acquire go round once
    per `P` or `Acquire` event and once per `Resume`. */
module SynchModel {
  import opened ThreadModel
  import opened ThreadLaws

  const INT_MAX: int := 0x7fff_ffff

  datatype LockState = LockState(isHeld: bool, holder: Option<Tid>)

  /** Where a thread is while it does not run its own code. */
  datatype Pc = Fresh | Running | Yielding | Sleeping | InP(sem: Chan) | InAcquire(lock: Chan)

  datatype Sys = Sys(k: Kernel, sems: map<Chan, int>, locks: map<Chan, LockState>, pc: map<Tid, Pc>)

  datatype Event =
    | Fork(t: Tid, m: Mem)
    | Yield(memOk: bool)
    | SleepOn(c: Chan, memOk: bool)
    | Exit(memOk: bool)
    | Pick
    | Resume(memOk: bool)
    | SemCreate(c: Chan, count: int)
    | LockCreate(c: Chan)
    | P(c: Chan, memOk: bool)
    | V(c: Chan, memOk: bool)
    | Acquire(c: Chan, memOk: bool)
    | Release(c: Chan, memOk: bool)
    | Wake(c: Chan, memOk: bool)
    | WakeOne(c: Chan, memOk: bool)

  // -------------------------------------------------------------- transitions

  predicate Runs(s: Sys) {
    s.k.cur.Some? && s.k.cur.value in s.pc && s.pc[s.k.cur.value] == Running
  }

  /** Interrupts are taken while a thread runs its own code and while the scheduler
      looks for work. One interrupt may bring several wakeups, so the idle case does
      not ask for an empty run queue. */
  predicate Open(s: Sys) {
    s.k.cur.Some? ==> Runs(s)
  }

  predicate InWaitLoop(s: Sys) {
    s.k.cur.Some? && s.k.cur.value in s.pc &&
    match s.pc[s.k.cur.value]
    case InP(c) => c in s.sems
    case InAcquire(c) => c in s.locks
    case _ => false
  }

  /** Nothing is known by address `c` yet, as for memory just allocated. */
  predicate Unused(s: Sys, c: Chan) {
    c !in s.sems && c !in s.locks && forall i :: 0 <= i < |s.k.sleepers| ==> !SleepsOn(s.k, i, c)
  }

  predicate Enabled(s: Sys, e: Event) {
    match e
    case Fork(t, _) => Runs(s) && t !in s.k.born && s.k.qsize > 0
    case Yield(_) => Open(s)
    case SleepOn(c, _) => Runs(s) && c !in s.sems && c !in s.locks
    case Exit(_) => Runs(s)
    case Pick => s.k.cur.None? && s.k.runq != []
    case Resume(_) => InWaitLoop(s)
    case SemCreate(c, n) => Runs(s) && Unused(s, c) && 0 <= n <= INT_MAX
    case LockCreate(c) => Runs(s) && Unused(s, c)
    case P(c, _) => Runs(s) && c in s.sems
    case V(c, _) => Open(s) && c in s.sems
    case Acquire(c, _) => Runs(s) && c in s.locks
    case Release(c, _) => Runs(s) && c in s.locks
    case Wake(_, _) => Open(s)
    case WakeOne(_, _) => Open(s)
  }

  function WithKernel(s: Sys, r: Outcome<Kernel>): Outcome<Sys> {
    match r
    case Panic => Panic
    case Ok(k) => Ok(s.(k := k))
  }

  /** The current thread gives up the processor, to go on at `p` later. */
  function Leave(s: Sys, r: Outcome<Kernel>, p: Pc): Outcome<Sys>
    requires s.k.cur.Some?
  {
    WithKernel(s.(pc := s.pc[s.k.cur.value := p]), r)
  }

  /** One turn of the wait loop of P, and the decrement behind it. */
  function TryP(s: Sys, c: Chan, memOk: bool): Outcome<Sys>
    requires s.k.cur.Some? && c in s.sems
  {
    if s.sems[c] == 0 then Leave(s, ThreadModel.Sleep(s.k, c, memOk), InP(c))
    else if s.sems[c] < 0 then Panic
    else Ok(s.(sems := s.sems[c := s.sems[c] - 1], pc := s.pc[s.k.cur.value := Running]))
  }

  /** One turn of the wait loop of lock_acquire, and what follows it. */
  function TryAcquire(s: Sys, c: Chan, memOk: bool): Outcome<Sys>
    requires s.k.cur.Some? && c in s.locks
  {
    if s.locks[c].isHeld then Leave(s, ThreadModel.Sleep(s.k, c, memOk), InAcquire(c))
    else Ok(s.(locks := s.locks[c := LockState(true, s.k.cur)], pc := s.pc[s.k.cur.value := Running]))
  }

  /** The picked thread goes on where it stopped: it disposes of the zombies
      unless it is new, and forgets its sleep address if it slept. */
  function PickAndGo(s: Sys): Sys
    requires s.k.runq != []
  {
    var t := s.k.runq[0];
    var p := if t in s.pc then s.pc[t] else Fresh;
    var k1 := ThreadModel.Pick(s.k);
    var k2 := if p == Fresh then k1 else Exorcise(k1);
    match p
    case Fresh => s.(k := k2, pc := s.pc[t := Running])
    case Running => s.(k := k2)
    case Yielding => s.(k := k2, pc := s.pc[t := Running])
    case Sleeping => s.(k := k2.(chan := k2.chan - {t}), pc := s.pc[t := Running])
    case InP(_) => s.(k := k2.(chan := k2.chan - {t}))
    case InAcquire(_) => s.(k := k2.(chan := k2.chan - {t}))
  }

  function Step(s: Sys, e: Event): Outcome<Sys>
    requires Enabled(s, e)
  {
    match e
    case Fork(t, m) =>
      var (k, ok) := ThreadModel.Fork(s.k, t, m);
      Ok(s.(k := k, pc := if ok then s.pc[t := Fresh] else s.pc))
    case Yield(memOk) =>
      if s.k.cur.None? then Ok(s) else Leave(s, ThreadModel.Yield(s.k, memOk), Yielding)
    case SleepOn(c, memOk) => Leave(s, ThreadModel.Sleep(s.k, c, memOk), Sleeping)
    case Exit(memOk) => WithKernel(s, ThreadModel.Exit(s.k, memOk))
    case Pick => Ok(PickAndGo(s))
    case Resume(memOk) =>
      (match s.pc[s.k.cur.value]
       case InP(c) => TryP(s, c, memOk)
       case InAcquire(c) => TryAcquire(s, c, memOk)
       case _ => Panic)
    case SemCreate(c, n) => Ok(s.(sems := s.sems[c := n]))
    case LockCreate(c) => Ok(s.(locks := s.locks[c := LockState(false, None)]))
    case P(c, memOk) => TryP(s, c, memOk)
    case V(c, memOk) =>
      // the increment wraps at INT_MAX, and the assertion behind it fails then
      if s.sems[c] == INT_MAX || s.sems[c] + 1 <= 0 then Panic
      else WithKernel(s.(sems := s.sems[c := s.sems[c] + 1]), Wakeup(s.k, c, memOk))
    case Acquire(c, memOk) =>
      if s.locks[c].holder == s.k.cur then Panic else TryAcquire(s, c, memOk)
    case Release(c, memOk) =>
      if s.locks[c].holder != s.k.cur then Panic
      else WithKernel(s.(locks := s.locks[c := LockState(false, None)]), Wakeup(s.k, c, memOk))
    case Wake(c, memOk) => WithKernel(s, Wakeup(s.k, c, memOk))
    case WakeOne(c, memOk) => WithKernel(s, WakeupOne(s.k, c, memOk))
  }

  ghost predicate Next(s: Sys, e: Event, s': Sys) {
    Enabled(s, e) && Step(s, e) == Ok(s')
  }

  // --------------------------------------------------------------- invariant

  /** Nobody sleeps on a semaphore that is available. */
  ghost predicate SemsOk(s: Sys) {
    forall c :: c in s.sems ==> 0 <= s.sems[c] <= INT_MAX && (s.sems[c] > 0 ==> NobodyOn(s.k, c))
  }

  /** isHeld and holder agree, and nobody sleeps on a free lock. */
  ghost predicate LocksOk(s: Sys) {
    forall c :: c in s.locks ==>
      && (s.locks[c].isHeld <==> s.locks[c].holder.Some?)
      && (!s.locks[c].isHeld ==> NobodyOn(s.k, c))
  }

  ghost predicate NobodyOn(k: Kernel, c: Chan) {
    forall t :: t in k.sleepers ==> !Waits(k.chan, c, t)
  }

  /** A sleeper sleeps on what its call is waiting for. */
  ghost predicate SleeperOk(s: Sys, t: Tid) {
    t in s.pc && t in s.k.chan &&
    match s.pc[t]
    case Sleeping => s.k.chan[t] !in s.sems && s.k.chan[t] !in s.locks
    case InP(c) => c in s.sems && s.k.chan[t] == c
    case InAcquire(c) => c in s.locks && s.k.chan[t] == c
    case _ => false
  }

  ghost predicate SleepersOk(s: Sys) {
    forall t :: t in s.k.sleepers ==> SleeperOk(s, t)
  }

  ghost predicate SInv(s: Sys) {
    && KInv(s.k) && SemsOk(s) && LocksOk(s) && SleepersOk(s)
    && forall c :: c in s.sems ==> c !in s.locks
  }

  /** No lost wakeup: a thread asleep inside P waits for a semaphore that is at
      zero, and a thread asleep inside lock_acquire for a lock that is held. */
  lemma NoLostWakeup(s: Sys, t: Tid)
    requires SInv(s) && t in s.k.sleepers && t in s.pc
    ensures s.pc[t].InP? ==> s.pc[t].sem in s.sems && s.sems[s.pc[t].sem] == 0
    ensures s.pc[t].InAcquire? ==> s.pc[t].lock in s.locks && s.locks[s.pc[t].lock].isHeld
  {
    assert SleeperOk(s, t);
  }

  // -------------------------------------------------- every event keeps it

  /** Fewer sleepers, each still on its address: nothing can go wrong. */
  lemma FewerSleepers(s: Sys, s': Sys)
    requires SInv(s) && KInv(s'.k) && s'.sems == s.sems && s'.locks == s.locks
    requires forall t :: t in s'.k.sleepers ==> t in s.k.sleepers
    requires forall t :: t in s.k.sleepers && t in s.k.chan && t in s.pc ==>
      t in s'.k.chan && s'.k.chan[t] == s.k.chan[t] && t in s'.pc && s'.pc[t] == s.pc[t]
    ensures SInv(s')
  {
    hide KInv;
    forall t | t in s'.k.sleepers
      ensures SleeperOk(s', t)
    {
      assert SleeperOk(s, t);
    }
    forall c, t | t in s'.k.sleepers && !Waits(s.k.chan, c, t)
      ensures !Waits(s'.k.chan, c, t)
    {
      assert SleeperOk(s, t);
    }
  }

  lemma SleeperIsNotCurrent(k: Kernel)
    requires KInv(k) && k.cur.Some?
    ensures k.cur.value !in k.sleepers
  {
    CurrentIsElsewhere(k);
  }

  lemma ForkStep(s: Sys, t: Tid, m: Mem, s': Sys)
    requires SInv(s) && Next(s, Fork(t, m), s')
    ensures SInv(s')
  {
    hide KInv, SemsOk, LocksOk, SleepersOk;
    ForkKeeps(s.k, t, m);
    SleepersAreBorn(s.k);
    FewerSleepers(s, s');
  }

  lemma SleepersAreBorn(k: Kernel)
    requires KInv(k)
    ensures forall t :: t in k.sleepers ==> t in k.born
  {
    forall t | t in k.sleepers
      ensures t in k.born
    {
      assert t in multiset(k.sleepers);
      assert t in Census(k);
    }
  }

  lemma YieldStep(s: Sys, memOk: bool, s': Sys)
    requires SInv(s) && Next(s, Yield(memOk), s')
    ensures SInv(s')
  {
    YieldKeeps(s.k, memOk);
    if s.k.cur.Some? {
      SleeperIsNotCurrent(s.k);
      hide KInv;
      FewerSleepers(s, s');
    }
  }

  lemma ExitStep(s: Sys, memOk: bool, s': Sys)
    requires SInv(s) && Next(s, Exit(memOk), s')
    ensures SInv(s')
  {
    ExitKeeps(s.k, memOk);
    hide KInv;
    FewerSleepers(s, s');
  }

  /** Going to sleep on `c` inside a call that waits for it, when it is not available. */
  lemma SleepStep(s: Sys, c: Chan, memOk: bool, p: Pc, s': Sys)
    requires SInv(s) && s.k.cur.Some? && Leave(s, ThreadModel.Sleep(s.k, c, memOk), p) == Ok(s')
    requires (p == Sleeping && c !in s.sems && c !in s.locks)
          || (p == InP(c) && c in s.sems && s.sems[c] == 0)
          || (p == InAcquire(c) && c in s.locks && s.locks[c].isHeld)
    ensures SInv(s')
  {
    SleepKeeps(s.k, c, memOk);
    SleeperIsNotCurrent(s.k);
    hide KInv;
    forall t | t in s'.k.sleepers
      ensures SleeperOk(s', t)
    {
      if t != s.k.cur.value {
        assert t in s.k.sleepers;
        assert SleeperOk(s, t);
      }
    }
  }

  lemma TryPStep(s: Sys, c: Chan, memOk: bool, s': Sys)
    requires SInv(s) && s.k.cur.Some? && c in s.sems && TryP(s, c, memOk) == Ok(s')
    ensures SInv(s')
  {
    if s.sems[c] == 0 {
      SleepStep(s, c, memOk, InP(c), s');
    } else {
      SleeperIsNotCurrent(s.k);
      hide KInv;
      assert SemsOk(s');
      assert forall t :: t in s'.k.sleepers ==> SleeperOk(s, t);
    }
  }

  lemma TryAcquireStep(s: Sys, c: Chan, memOk: bool, s': Sys)
    requires SInv(s) && s.k.cur.Some? && c in s.locks && TryAcquire(s, c, memOk) == Ok(s')
    ensures SInv(s')
  {
    if s.locks[c].isHeld {
      SleepStep(s, c, memOk, InAcquire(c), s');
    } else {
      SleeperIsNotCurrent(s.k);
      hide KInv;
      assert LocksOk(s');
      assert forall t :: t in s'.k.sleepers ==> SleeperOk(s, t);
    }
  }

  lemma PickStep(s: Sys, s': Sys)
    requires SInv(s) && Next(s, Event.Pick, s')
    ensures SInv(s')
  {
    hide KInv, Exorcise, SemsOk, LocksOk, SleepersOk;
    var t, k1 := s.k.runq[0], ThreadModel.Pick(s.k);
    PickKeeps(s.k);
    ExorciseKeeps(k1);
    SleeperIsNotCurrent(k1);
    SameInv(k1, t);
    SameInv(Exorcise(k1), t);
    ExorciseKeepsSleepers(k1);
    FewerSleepers(s, s');
  }

  lemma ExorciseKeepsSleepers(k: Kernel)
    ensures Exorcise(k).sleepers == k.sleepers && Exorcise(k).chan == k.chan
  {
  }

  lemma SameInv(k: Kernel, t: Tid)
    requires KInv(k)
    ensures KInv(k.(chan := k.chan - {t}))
  {
    assert Census(k.(chan := k.chan - {t})) == Census(k);
    hide OneEach;
  }

  lemma SkipOffMembers(s: seq<Tid>, chan: map<Tid, Chan>, c: Chan)
    ensures forall t :: t in SkipOff(s, chan, c) ==> t in s
  {
  }

  lemma WakeOneStep(s: Sys, c: Chan, memOk: bool, s': Sys)
    requires SInv(s) && Next(s, WakeOne(c, memOk), s')
    ensures SInv(s')
  {
    WakeKeeps(s.k, c, 0, false, memOk);
    WakeupOneSplits(s.k, c, memOk);
    SkipOffMembers(s.k.sleepers, s.k.chan, c);
    hide KInv;
    FewerSleepers(s, s');
  }

  /** A wakeup on `c` leaves nobody on `c`. */
  lemma WakeStep(s: Sys, c: Chan, memOk: bool, s': Sys)
    requires SInv(s) && WithKernel(s, Wakeup(s.k, c, memOk)) == Ok(s')
    ensures SInv(s') && NobodyOn(s'.k, c)
  {
    WakeKeeps(s.k, c, 0, true, memOk);
    WakeupSplits(s.k, c, memOk);
    OnOffMembers(s.k.sleepers, s.k.chan, c);
    hide KInv;
    FewerSleepers(s, s');
  }

  /** With nobody asleep on it, a semaphore may have any count. */
  lemma CountChanged(s: Sys, c: Chan, n: int)
    requires SInv(s) && c in s.sems && NobodyOn(s.k, c) && 0 <= n <= INT_MAX
    ensures SInv(s.(sems := s.sems[c := n]))
  {
    hide KInv;
    assert forall t :: t in s.k.sleepers ==> SleeperOk(s, t);
  }

  lemma LockChanged(s: Sys, c: Chan)
    requires SInv(s) && c in s.locks && NobodyOn(s.k, c)
    ensures SInv(s.(locks := s.locks[c := LockState(false, None)]))
  {
    hide KInv;
    assert forall t :: t in s.k.sleepers ==> SleeperOk(s, t);
  }

  lemma VStep(s: Sys, c: Chan, memOk: bool, s': Sys)
    requires SInv(s) && Next(s, V(c, memOk), s')
    ensures SInv(s')
  {
    hide SInv, WakeFrom, NobodyOn;
    CountInRange(s, c);
    var s1 := s.(k := s'.k);
    WakeStep(s, c, memOk, s1);
    CountChanged(s1, c, s.sems[c] + 1);
  }

  lemma CountInRange(s: Sys, c: Chan)
    requires SInv(s) && c in s.sems
    ensures 0 <= s.sems[c] <= INT_MAX
  {
  }

  lemma ReleaseStep(s: Sys, c: Chan, memOk: bool, s': Sys)
    requires SInv(s) && Next(s, Release(c, memOk), s')
    ensures SInv(s')
  {
    hide SInv, WakeFrom, NobodyOn;
    var s1 := s.(k := s'.k);
    WakeStep(s, c, memOk, s1);
    LockChanged(s1, c);
  }

  lemma CreateStep(s: Sys, c: Chan, e: Event, s': Sys)
    requires SInv(s) && (e.SemCreate? || e.LockCreate?) && e.c == c && Next(s, e, s')
    ensures SInv(s')
  {
    hide KInv;
    forall t | t in s.k.sleepers
      ensures !Waits(s.k.chan, c, t)
    {
      var i :| 0 <= i < |s.k.sleepers| && s.k.sleepers[i] == t;
      assert !SleepsOn(s.k, i, c);
    }
    assert forall t :: t in s.k.sleepers ==> SleeperOk(s, t);
  }

  /** Every event that does not panic keeps the invariant. */
  lemma StepKeeps(s: Sys, e: Event, s': Sys)
    requires SInv(s) && Next(s, e, s')
    ensures SInv(s')
  {
    match e
    case Fork(t, m) => ForkStep(s, t, m, s');
    case Yield(memOk) => YieldStep(s, memOk, s');
    case SleepOn(c, memOk) => SleepStep(s, c, memOk, Sleeping, s');
    case Exit(memOk) => ExitStep(s, memOk, s');
    case Pick => PickStep(s, s');
    case Resume(memOk) =>
      match s.pc[s.k.cur.value] {
        case InP(c) => TryPStep(s, c, memOk, s');
        case InAcquire(c) => TryAcquireStep(s, c, memOk, s');
      }
    case SemCreate(c, _) => CreateStep(s, c, e, s');
    case LockCreate(c) => CreateStep(s, c, e, s');
    case P(c, memOk) => TryPStep(s, c, memOk, s');
    case V(c, memOk) => VStep(s, c, memOk, s');
    case Acquire(c, memOk) => TryAcquireStep(s, c, memOk, s');
    case Release(c, memOk) => ReleaseStep(s, c, memOk, s');
    case Wake(c, memOk) => WakeStep(s, c, memOk, s');
    case WakeOne(c, memOk) => WakeOneStep(s, c, memOk, s');
  }

  /** Memory is there for whatever the event allocates. */
  predicate HasMemory(e: Event) {
    match e
    case Yield(memOk) => memOk
    case SleepOn(_, memOk) => memOk
    case Exit(memOk) => memOk
    case Resume(memOk) => memOk
    case P(_, memOk) => memOk
    case V(_, memOk) => memOk
    case Acquire(_, memOk) => memOk
    case Release(_, memOk) => memOk
    case Wake(_, memOk) => memOk
    case WakeOne(_, memOk) => memOk
    case _ => true
  }

  /** With memory, the only panics are a semaphore count that overflows, a second
      acquire by the holder of a lock, and a release by anybody else. */
  lemma OnlyMisusePanics(s: Sys, e: Event)
    requires SInv(s) && Enabled(s, e) && HasMemory(e)
    ensures Step(s, e).Panic? <==>
      || (e.V? && s.sems[e.c] == 0x7fff_ffff)
      || (e.Acquire? && s.locks[e.c].holder == s.k.cur)
      || (e.Release? && s.locks[e.c].holder != s.k.cur)
  {
    if e.V? || e.Release? || e.Wake? {
      MemoryIsEnough(s.k, e.c, 0, true);
    } else if e.WakeOne? {
      MemoryIsEnough(s.k, e.c, 0, false);
    } else if e.Exit? {
      assert |CurSeq(s.k)| == 1;
    }
    hide OneEach, Census, SleepersOk, LocksOk, WakeFrom;
  }

  /** The state after booting, before any semaphore or lock exists. */
  lemma BootSys(me: Tid)
    ensures SInv(Sys(Boot(me), map[], map[], map[me := Running]))
  {
    BootInv(me);
  }
}
