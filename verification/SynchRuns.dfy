/** What holds over whole runs of the thread system, for any number of threads
    and any order of events, as long as no assertion fails. */
module SynchRuns {
  import opened Basics
  import opened ThreadModel
  import opened ThreadLaws
  import opened SynchModel
  import PtrArray
  import RingQueue

  ghost predicate IsRun(ss: seq<Sys>, es: seq<Event>) {
    |ss| == |es| + 1 && forall i :: 0 <= i < |es| ==> Next(ss[i], es[i], ss[i + 1])
  }

  lemma NextAt(ss: seq<Sys>, es: seq<Event>, i: nat)
    requires IsRun(ss, es) && i < |es|
    ensures |ss| == |es| + 1 && Next(ss[i], es[i], ss[i + 1])
  {
    hide Next;
  }

  lemma RunLength(ss: seq<Sys>, es: seq<Event>)
    requires IsRun(ss, es)
    ensures |ss| == |es| + 1
  {
    hide Next;
  }

  /** The invariant holds in every state of every run that starts with it. */
  lemma {:induction false} RunKeeps(ss: seq<Sys>, es: seq<Event>, i: nat)
    requires IsRun(ss, es) && SInv(ss[0]) && i <= |es|
    ensures SInv(ss[i])
    decreases i
  {
    hide Next, SInv, IsRun;
    RunLength(ss, es);
    if i > 0 {
      NextAt(ss, es, i - 1);
      RunKeeps(ss, es, i - 1);
      StepKeeps(ss[i - 1], es[i - 1], ss[i]);
    }
  }

  // ------------------------------------------------------------- round robin

  /** Picks among the first `n` events. */
  function Picks(es: seq<Event>, n: nat): nat
    requires n <= |es|
  {
    if n == 0 then 0 else Picks(es, n - 1) + (if es[n - 1] == Event.Pick then 1 else 0)
  }

  lemma {:induction false} WakeAppends(k: Kernel, c: Chan, i: nat, again: bool, memOk: bool)
    requires WakeFrom(k, c, i, again, memOk).Ok?
    ensures var k' := WakeFrom(k, c, i, again, memOk).state;
      k.runq <= k'.runq && k'.cur == k.cur && k'.smax == k.smax && k'.born == k.born
    decreases |k.sleepers| - i
  {
    if i < |k.sleepers| {
      if !SleepsOn(k, i, c) {
        WakeAppends(k, c, i + 1, again, memOk);
      } else {
        var p := Push(k.(sleepers := Without(k.sleepers, i)), k.sleepers[i], memOk);
        WakeAppends(p.state, c, if again then i else i + 1, again, memOk);
      }
    }
  }

  /** Only a pick takes from the run queue, and it takes the head; everything
      else adds at the tail or leaves it. */
  lemma QueueStep(s: Sys, e: Event, s': Sys)
    requires Next(s, e, s')
    ensures if e == Event.Pick then s.k.runq != [] && s'.k.runq == s.k.runq[1..] && s'.k.cur == Some(s.k.runq[0])
            else s.k.runq <= s'.k.runq
  {
    match e
    case V(c, memOk) => WakeAppends(s.k, c, 0, true, memOk);
    case Release(c, memOk) => WakeAppends(s.k, c, 0, true, memOk);
    case Wake(c, memOk) => WakeAppends(s.k, c, 0, true, memOk);
    case WakeOne(c, memOk) => WakeAppends(s.k, c, 0, false, memOk);
    case _ =>
  }

  /** The thread at position `k` of the run queue moves up by one with each pick,
      whatever else happens. */
  lemma {:induction false} MovesUp(ss: seq<Sys>, es: seq<Event>, k: nat, n: nat)
    requires IsRun(ss, es) && k < |ss[0].k.runq| && n <= |es| && Picks(es, n) <= k
    ensures var q := ss[n].k.runq; k - Picks(es, n) < |q| && q[k - Picks(es, n)] == ss[0].k.runq[k]
    decreases n
  {
    hide Next, IsRun;
    RunLength(ss, es);
    if n > 0 {
      NextAt(ss, es, n - 1);
      MovesUp(ss, es, k, n - 1);
      QueueStep(ss[n - 1], es[n - 1], ss[n]);
    }
  }

  /** Round robin: the thread at position `k` becomes current with pick number
      `k + 1`; until then `MovesUp` keeps it in the queue. */
  lemma RoundRobin(ss: seq<Sys>, es: seq<Event>, k: nat, n: nat)
    requires IsRun(ss, es) && k < |ss[0].k.runq|
    requires n < |es| && Picks(es, n) == k && es[n] == Event.Pick
    ensures ss[n + 1].k.cur == Some(ss[0].k.runq[k])
  {
    hide Next, IsRun;
    RunLength(ss, es);
    NextAt(ss, es, n);
    MovesUp(ss, es, k, n);
    QueueStep(ss[n], es[n], ss[n + 1]);
  }

  // ---------------------------------------------------- exited threads, room

  /** `t` existed once and neither runs, nor may run, nor sleeps. */
  ghost predicate Gone(k: Kernel, t: Tid) {
    t in k.born && k.cur != Some(t) && t !in k.runq && t !in k.sleepers
  }

  lemma {:induction false} WakeLeavesGone(k: Kernel, c: Chan, i: nat, again: bool, memOk: bool, t: Tid)
    requires WakeFrom(k, c, i, again, memOk).Ok? && Gone(k, t)
    ensures Gone(WakeFrom(k, c, i, again, memOk).state, t)
    decreases |k.sleepers| - i
  {
    if i < |k.sleepers| {
      if !SleepsOn(k, i, c) {
        WakeLeavesGone(k, c, i + 1, again, memOk, t);
      } else {
        var p := Push(k.(sleepers := Without(k.sleepers, i)), k.sleepers[i], memOk);
        WakeLeavesGone(p.state, c, if again then i else i + 1, again, memOk, t);
      }
    }
  }

  lemma GoneStep(s: Sys, e: Event, s': Sys, t: Tid)
    requires Next(s, e, s') && Gone(s.k, t)
    ensures Gone(s'.k, t)
  {
    match e
    case V(c, memOk) => WakeLeavesGone(s.k, c, 0, true, memOk, t);
    case Release(c, memOk) => WakeLeavesGone(s.k, c, 0, true, memOk, t);
    case Wake(c, memOk) => WakeLeavesGone(s.k, c, 0, true, memOk, t);
    case WakeOne(c, memOk) => WakeLeavesGone(s.k, c, 0, false, memOk, t);
    case _ =>
  }

  /** A thread that exited is never scheduled, queued or put to sleep again. */
  lemma {:induction false} ExitedStaysGone(ss: seq<Sys>, es: seq<Event>, i: nat, j: nat)
    requires IsRun(ss, es) && SInv(ss[0]) && i < j <= |es| && es[i].Exit?
    ensures ss[i].k.cur.Some? && Gone(ss[j].k, ss[i].k.cur.value)
    decreases j
  {
    RunKeeps(ss, es, i);
    assert Next(ss[i], es[i], ss[i + 1]);
    CurrentIsElsewhere(ss[i].k);
    CurrentIsBorn(ss[i].k);
    if i + 1 < j {
      hide Next;
      ExitedStaysGone(ss, es, i, j - 1);
      GoneStep(ss[j - 1], es[j - 1], ss[j], ss[i].k.cur.value);
    }
  }

  lemma CurrentIsBorn(k: Kernel)
    requires KInv(k) && k.cur.Some?
    ensures k.cur.value in k.born
  {
    assert k.cur.value in CurSeq(k);
    assert k.cur.value in Census(k);
  }

  lemma RoomStep(s: Sys, e: Event, s': Sys)
    requires Next(s, e, s')
    ensures s'.k.smax >= s.k.smax
  {
    match e
    case V(c, memOk) => WakeAppends(s.k, c, 0, true, memOk);
    case Release(c, memOk) => WakeAppends(s.k, c, 0, true, memOk);
    case Wake(c, memOk) => WakeAppends(s.k, c, 0, true, memOk);
    case WakeOne(c, memOk) => WakeAppends(s.k, c, 0, false, memOk);
    case _ =>
  }

  lemma {:induction false} RoomGrows(ss: seq<Sys>, es: seq<Event>, i: nat, j: nat)
    requires IsRun(ss, es) && i <= j <= |es|
    ensures ss[j].k.smax >= ss[i].k.smax
    decreases j
  {
    hide Next, IsRun;
    RunLength(ss, es);
    if i < j {
      NextAt(ss, es, j - 1);
      RoomGrows(ss, es, i, j - 1);
      RoomStep(ss[j - 1], es[j - 1], ss[j]);
    }
  }

  /** After the first successful fork, going to sleep never needs memory. */
  lemma SleepAfterFork(ss: seq<Sys>, es: seq<Event>, i: nat, j: nat, c: Chan)
    requires IsRun(ss, es) && SInv(ss[0]) && i < j <= |es| && ss[j].k.cur.Some?
    requires es[i].Fork? && ss[i].k.qsize > 0 && ThreadModel.Fork(ss[i].k, es[i].t, es[i].m).1
    ensures Sleep(ss[j].k, c, false).Ok? && Sleep(ss[j].k, c, false).state.smax == ss[j].k.smax
  {
    RunKeeps(ss, es, i);
    RunKeeps(ss, es, j);
    assert Next(ss[i], es[i], ss[i + 1]);
    ForkKeeps(ss[i].k, es[i].t, es[i].m);
    RoomGrows(ss, es, i + 1, j);
    SleepMemory(ss[j].k, c);
  }

  // --------------------------------------------------------- sleep addresses

  /** A sleep address belongs to a thread that was put to sleep and has not run since. */
  predicate AddressOk(s: Sys, t: Tid) {
    t in s.k.chan ==>
      && t in s.k.born && s.k.cur != Some(t) && t in s.pc
      && (s.pc[t].Sleeping? || s.pc[t].InP? || s.pc[t].InAcquire?)
  }

  ghost predicate AddressesOk(s: Sys) {
    forall t :: t in s.k.chan ==> AddressOk(s, t)
  }

  lemma {:induction false} WakeKeepsAddresses(k: Kernel, c: Chan, i: nat, again: bool, memOk: bool)
    requires WakeFrom(k, c, i, again, memOk).Ok?
    ensures var k' := WakeFrom(k, c, i, again, memOk).state; k'.chan == k.chan && k'.cur == k.cur && k'.born == k.born
    decreases |k.sleepers| - i
  {
    if i < |k.sleepers| {
      if !SleepsOn(k, i, c) {
        WakeKeepsAddresses(k, c, i + 1, again, memOk);
      } else {
        var p := Push(k.(sleepers := Without(k.sleepers, i)), k.sleepers[i], memOk);
        WakeKeepsAddresses(p.state, c, if again then i else i + 1, again, memOk);
      }
    }
  }

  lemma AddressStepAt(s: Sys, e: Event, s': Sys, t: Tid)
    requires Next(s, e, s') && AddressOk(s, t) && (s.k.cur.Some? ==> s.k.cur.value in s.k.born)
    ensures AddressOk(s', t)
  {
    hide PtrArray.Grown, RingQueue.Doubled, WakeFrom;
    match e
    case V(c, memOk) => WakeKeepsAddresses(s.k, c, 0, true, memOk);
    case Release(c, memOk) => WakeKeepsAddresses(s.k, c, 0, true, memOk);
    case Wake(c, memOk) => WakeKeepsAddresses(s.k, c, 0, true, memOk);
    case WakeOne(c, memOk) => WakeKeepsAddresses(s.k, c, 0, false, memOk);
    case _ =>
  }

  lemma AddressStep(s: Sys, e: Event, s': Sys)
    requires Next(s, e, s') && AddressesOk(s) && (s.k.cur.Some? ==> s.k.cur.value in s.k.born)
    ensures AddressesOk(s')
  {
    hide Next, AddressOk;
    forall t | t in s'.k.chan ensures AddressOk(s', t) {
      if t !in s.k.chan {
        NoAddress(s, t);
      }
      AddressStepAt(s, e, s', t);
    }
  }

  lemma NoAddress(s: Sys, t: Tid)
    requires t !in s.k.chan
    ensures AddressOk(s, t)
  {
  }

  lemma {:induction false} AddressesKept(ss: seq<Sys>, es: seq<Event>, i: nat)
    requires IsRun(ss, es) && SInv(ss[0]) && AddressesOk(ss[0]) && i <= |es|
    ensures AddressesOk(ss[i])
    decreases i
  {
    hide Next, IsRun, SInv, AddressesOk;
    RunLength(ss, es);
    if i > 0 {
      NextAt(ss, es, i - 1);
      AddressesKept(ss, es, i - 1);
      RunKeeps(ss, es, i - 1);
      RunnerIsBorn(ss[i - 1]);
      AddressStep(ss[i - 1], es[i - 1], ss[i]);
    }
  }

  lemma RunnerIsBorn(s: Sys)
    requires SInv(s)
    ensures s.k.cur.Some? ==> s.k.cur.value in s.k.born
  {
    if s.k.cur.Some? {
      CurrentIsBorn(s.k);
    }
  }

  /** The running thread has no sleep address: mi_switch came back and it was cleared. */
  lemma RunningHasNoAddress(ss: seq<Sys>, es: seq<Event>, i: nat)
    requires IsRun(ss, es) && SInv(ss[0]) && ss[0].k.chan == map[] && i <= |es| && ss[i].k.cur.Some?
    ensures ss[i].k.cur.value !in ss[i].k.chan
  {
    hide Next, IsRun, SInv;
    RunLength(ss, es);
    AddressesKept(ss, es, i);
    assert ss[i].k.cur.value in ss[i].k.chan ==> AddressOk(ss[i], ss[i].k.cur.value);
  }

  // -------------------------------------------------------------- semaphores

  /** The current thread gets through P on `c` with this event. */
  predicate FinishesP(s: Sys, e: Event, c: Chan) {
    c in s.sems && s.sems[c] > 0 &&
    ((e.P? && e.c == c) || (e.Resume? && InWaitLoop(s) && s.pc[s.k.cur.value] == InP(c)))
  }

  /** Ps on `c` that got through among events i to j - 1. */
  function Ps(ss: seq<Sys>, es: seq<Event>, c: Chan, i: nat, j: nat): nat
    requires i <= j <= |es| < |ss|
  {
    if i == j then 0 else Ps(ss, es, c, i, j - 1) + (if FinishesP(ss[j - 1], es[j - 1], c) then 1 else 0)
  }

  function Vs(es: seq<Event>, c: Chan, i: nat, j: nat): nat
    requires i <= j <= |es|
  {
    if i == j then 0 else Vs(es, c, i, j - 1) + (if es[j - 1].V? && es[j - 1].c == c then 1 else 0)
  }

  lemma CountStep(s: Sys, e: Event, s': Sys, c: Chan)
    requires Next(s, e, s') && c in s.sems
    ensures c in s'.sems
    ensures s'.sems[c] == s.sems[c] + (if e.V? && e.c == c then 1 else 0) - (if FinishesP(s, e, c) then 1 else 0)
  {
  }

  /** A semaphore's count is what it was, plus the Vs, minus the Ps that got through. */
  lemma {:induction false} SemaphoreHistory(ss: seq<Sys>, es: seq<Event>, c: Chan, i: nat, j: nat)
    requires IsRun(ss, es) && i <= j <= |es| && c in ss[i].sems
    ensures c in ss[j].sems
    ensures ss[j].sems[c] == ss[i].sems[c] + Vs(es, c, i, j) - Ps(ss, es, c, i, j)
    decreases j
  {
    hide Next, FinishesP, IsRun;
    RunLength(ss, es);
    if i < j {
      NextAt(ss, es, j - 1);
      SemaphoreHistory(ss, es, c, i, j - 1);
      CountStep(ss[j - 1], es[j - 1], ss[j], c);
    }
  }

  lemma NewSemaphore(s: Sys, c: Chan, n: int, s': Sys)
    requires Next(s, SemCreate(c, n), s')
    ensures c in s'.sems && s'.sems[c] == n
  {
  }

  /** A semaphore starts with the count it is created with. */
  lemma CreatedSemaphoreHistory(ss: seq<Sys>, es: seq<Event>, c: Chan, n: int, i: nat, j: nat)
    requires IsRun(ss, es) && i < j <= |es| && es[i] == SemCreate(c, n)
    ensures c in ss[j].sems
    ensures ss[j].sems[c] == n + Vs(es, c, i + 1, j) - Ps(ss, es, c, i + 1, j)
  {
    hide Next, IsRun, Ps, Vs;
    RunLength(ss, es);
    NextAt(ss, es, i);
    NewSemaphore(ss[i], c, n, ss[i + 1]);
    SemaphoreHistory(ss, es, c, i + 1, j);
  }

  /** What P does: it gets through with one count less, or the caller sleeps. */
  lemma DownStep(s: Sys, c: Chan)
    requires SInv(s) && Enabled(s, Event.P(c, true))
    ensures var r := Step(s, Event.P(c, true));
      && r.Ok?
      && (FinishesP(s, Event.P(c, true), c) <==> s.sems[c] > 0)
      && (s.sems[c] > 0 ==> r.state.k == s.k && r.state.sems[c] == s.sems[c] - 1)
      && (s.sems[c] == 0 ==> r.state.k.cur.None? && r.state.k.sleepers == s.k.sleepers + [s.k.cur.value])
  {
    assert SemsOk(s);
    hide KInv;
  }

  /** Of the Ps on a semaphore created with count `n`, and before any V on it, exactly
      the first `n` get through; the caller of the next one sleeps. */
  lemma FirstPsGetThrough(ss: seq<Sys>, es: seq<Event>, c: Chan, n: int, i: nat, j: nat)
    requires IsRun(ss, es) && SInv(ss[0]) && i < j <= |es| && es[i] == SemCreate(c, n) && Vs(es, c, i + 1, j) == 0
    requires Enabled(ss[j], Event.P(c, true))
    ensures Ps(ss, es, c, i + 1, j) <= n
    ensures FinishesP(ss[j], Event.P(c, true), c) <==> Ps(ss, es, c, i + 1, j) < n
    ensures Ps(ss, es, c, i + 1, j) == n ==>
      var r := Step(ss[j], Event.P(c, true)); r.Ok? && r.state.k.sleepers == ss[j].k.sleepers + [ss[j].k.cur.value]
  {
    hide Next, IsRun, Ps, Vs, SInv, FinishesP, Step;
    RunLength(ss, es);
    RunKeeps(ss, es, j);
    CreatedSemaphoreHistory(ss, es, c, n, i, j);
    CountInRange(ss[j], c);
    DownStep(ss[j], c);
  }

  // ------------------------------------------------------------------- locks

  /** Thread `t` gets through lock_acquire on `c` with this event. */
  predicate FinishesAcquire(s: Sys, e: Event, t: Tid, c: Chan) {
    s.k.cur == Some(t) && c in s.locks && !s.locks[c].isHeld &&
    ((e.Acquire? && e.c == c) || (e.Resume? && InWaitLoop(s) && s.pc[t] == InAcquire(c)))
  }

  /** How often it does among events i to j - 1. */
  function Acquired(ss: seq<Sys>, es: seq<Event>, t: Tid, c: Chan, i: nat, j: nat): nat
    requires i <= j <= |es| < |ss|
  {
    if i == j then 0 else Acquired(ss, es, t, c, i, j - 1) + (if FinishesAcquire(ss[j - 1], es[j - 1], t, c) then 1 else 0)
  }

  predicate Releases(s: Sys, e: Event, t: Tid, c: Chan) {
    e.Release? && e.c == c && s.k.cur == Some(t)
  }

  function Released(ss: seq<Sys>, es: seq<Event>, t: Tid, c: Chan, i: nat, j: nat): nat
    requires i <= j <= |es| < |ss|
  {
    if i == j then 0 else Released(ss, es, t, c, i, j - 1) + (if Releases(ss[j - 1], es[j - 1], t, c) then 1 else 0)
  }

  function Holds(s: Sys, t: Tid, c: Chan): int
    requires c in s.locks
  {
    if s.locks[c].holder == Some(t) then 1 else 0
  }

  lemma HolderStep(s: Sys, e: Event, s': Sys, t: Tid, c: Chan)
    requires Next(s, e, s') && c in s.locks && (s.locks[c].isHeld <==> s.locks[c].holder.Some?)
    ensures c in s'.locks
    ensures Holds(s', t, c) ==
      Holds(s, t, c) + (if FinishesAcquire(s, e, t, c) then 1 else 0) - (if Releases(s, e, t, c) then 1 else 0)
  {
  }

  lemma LockAgrees(s: Sys, c: Chan)
    requires SInv(s) && c in s.locks
    ensures s.locks[c].isHeld <==> s.locks[c].holder.Some?
  {
    assert LocksOk(s);
    hide KInv;
  }

  /** A thread has acquired a lock once more than it has released it exactly when
      the lock names it as holder (counting from who held it at the start). */
  lemma {:induction false} LockHistory(ss: seq<Sys>, es: seq<Event>, t: Tid, c: Chan, i: nat, j: nat)
    requires IsRun(ss, es) && SInv(ss[0]) && i <= j <= |es| && c in ss[i].locks
    ensures c in ss[j].locks
    ensures Acquired(ss, es, t, c, i, j) - Released(ss, es, t, c, i, j) == Holds(ss[j], t, c) - Holds(ss[i], t, c)
    decreases j
  {
    hide Next, FinishesAcquire, Releases, SInv, Holds, IsRun;
    RunLength(ss, es);
    if i < j {
      NextAt(ss, es, j - 1);
      LockHistory(ss, es, t, c, i, j - 1);
      RunKeeps(ss, es, j - 1);
      LockAgrees(ss[j - 1], c);
      HolderStep(ss[j - 1], es[j - 1], ss[j], t, c);
    }
  }

  /** Mutual exclusion: from a free lock, of any two threads at most one is
      between its lock_acquire and its lock_release. */
  lemma MutualExclusion(ss: seq<Sys>, es: seq<Event>, t: Tid, u: Tid, c: Chan, i: nat, j: nat)
    requires IsRun(ss, es) && SInv(ss[0]) && i <= j <= |es| && t != u
    requires c in ss[i].locks && !ss[i].locks[c].isHeld
    ensures 0 <= Acquired(ss, es, t, c, i, j) - Released(ss, es, t, c, i, j) <= 1
    ensures Acquired(ss, es, t, c, i, j) == Released(ss, es, t, c, i, j)
         || Acquired(ss, es, u, c, i, j) == Released(ss, es, u, c, i, j)
  {
    hide Next, SInv, IsRun, Acquired, Released;
    RunLength(ss, es);
    RunKeeps(ss, es, i);
    LockAgrees(ss[i], c);
    LockHistory(ss, es, t, c, i, j);
    LockHistory(ss, es, u, c, i, j);
  }

  lemma NewLock(s: Sys, c: Chan, s': Sys)
    requires Next(s, LockCreate(c), s')
    ensures c in s'.locks && !s'.locks[c].isHeld && s'.locks[c].holder.None?
  {
  }

  /** A lock is created free, so it excludes from its creation on. */
  lemma CreatedLockExcludes(ss: seq<Sys>, es: seq<Event>, t: Tid, u: Tid, c: Chan, i: nat, j: nat)
    requires IsRun(ss, es) && SInv(ss[0]) && i < j <= |es| && es[i] == LockCreate(c) && t != u
    ensures c in ss[i + 1].locks && !ss[i + 1].locks[c].isHeld
    ensures 0 <= Acquired(ss, es, t, c, i + 1, j) - Released(ss, es, t, c, i + 1, j) <= 1
    ensures Acquired(ss, es, t, c, i + 1, j) == Released(ss, es, t, c, i + 1, j)
         || Acquired(ss, es, u, c, i + 1, j) == Released(ss, es, u, c, i + 1, j)
  {
    hide Next, SInv, IsRun, Acquired, Released;
    RunLength(ss, es);
    NextAt(ss, es, i);
    NewLock(ss[i], c, ss[i + 1]);
    MutualExclusion(ss, es, t, u, c, i + 1, j);
  }
}
