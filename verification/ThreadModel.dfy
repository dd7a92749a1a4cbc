/** The thread system on values (kern/thread/thread.c, kern/thread/scheduler.c):
    which list every thread is on, how much room each list has, and what each
    section that runs with interrupts off does to them. */
module ThreadModel {
  import opened Basics
  import RingQueue
  import PtrArray

  type Tid = nat
  type Chan = nat // a sleep address

  datatype Option<T> = None | Some(value: T)

  datatype Kernel = Kernel(
    cur: Option<Tid>,        // curthread; None while the scheduler looks for work
    runq: seq<Tid>,
    sleepers: seq<Tid>,
    zombies: seq<Tid>,
    numthreads: int,
    chan: map<Tid, Chan>,    // t_sleepaddr
    qsize: nat,              // size of the run queue's ring
    smax: nat,               // capacity of sleepers
    zmax: nat,               // capacity of zombies
    born: set<Tid>)          // every thread that was ever forked

  /** A failed assertion or an explicit panic ends the run. */
  datatype Outcome<S> = Ok(state: S) | Panic

  // -------------------------------------------------------------- operations

  predicate QueueFull(k: Kernel) {
    |k.runq| + 1 >= k.qsize
  }

  /** make_runnable: Panic here stands for its error return. */
  function Push(k: Kernel, t: Tid, memOk: bool): Outcome<Kernel> {
    if QueueFull(k) && !memOk then Panic
    else Ok(k.(runq := k.runq + [t], qsize := if QueueFull(k) then 2 * k.qsize else k.qsize))
  }

  /** Which of the allocations that thread_fork causes would succeed. */
  datatype Mem = Mem(sleepers: bool, zombies: bool, prealloc: bool, push: bool)

  function Reserve(k: Kernel, m: Mem): (Kernel, bool)
    requires k.qsize > 0
  {
    if !m.sleepers then (k, false) else
    var k1 := k.(smax := PtrArray.Grown(k.smax, k.numthreads + 1));
    if !m.zombies then (k1, false) else
    var k2 := k1.(zmax := PtrArray.Grown(k1.zmax, k1.numthreads + 1));
    if k2.numthreads + 1 > k2.qsize && !m.prealloc then (k2, false) else
    (k2.(qsize := RingQueue.Doubled(k2.qsize, k2.numthreads + 1)), true)
  }

  /** thread_fork of thread `t`; the flag says whether it succeeded. */
  function Fork(k: Kernel, t: Tid, m: Mem): (Kernel, bool)
    requires k.qsize > 0
  {
    var (k1, ok) := Reserve(k, m);
    if !ok then (k1, false) else
    match Push(k1, t, m.push)
    case Panic => (k1, false)
    case Ok(k2) => (k2.(numthreads := k2.numthreads + 1, born := k2.born + {t}), true)
  }

  /** mi_switch(S_READY) up to the scheduler; nothing happens while idle. */
  function Yield(k: Kernel, memOk: bool): Outcome<Kernel> {
    if k.cur.None? then Ok(k) else Push(k.(cur := None), k.cur.value, memOk)
  }

  /** thread_sleep up to the scheduler. */
  function Sleep(k: Kernel, c: Chan, memOk: bool): Outcome<Kernel>
    requires k.cur.Some?
  {
    if |k.sleepers| == k.smax && !memOk then Panic
    else Ok(k.(cur := None,
               sleepers := k.sleepers + [k.cur.value],
               smax := PtrArray.Grown(k.smax, |k.sleepers| + 1),
               chan := k.chan[k.cur.value := c]))
  }

  /** thread_exit up to the scheduler. */
  function Exit(k: Kernel, memOk: bool): Outcome<Kernel>
    requires k.cur.Some?
  {
    if k.numthreads <= 0 || (|k.zombies| == k.zmax && !memOk) then Panic
    else Ok(k.(cur := None,
               zombies := k.zombies + [k.cur.value],
               zmax := PtrArray.Grown(k.zmax, |k.zombies| + 1),
               numthreads := k.numthreads - 1))
  }

  /** The scheduler's pick: the head of the run queue becomes current. */
  function Pick(k: Kernel): Kernel
    requires k.runq != []
  {
    k.(cur := Some(k.runq[0]), runq := k.runq[1..])
  }

  /** Every thread but one that runs for the first time disposes of the zombies
      when it gets the processor. */
  function Exorcise(k: Kernel): Kernel {
    k.(zombies := [], zmax := if k.zmax > 16 then 0 else k.zmax)
  }

  /** Does sleeper number `i` sleep on `c`? */
  predicate SleepsOn(k: Kernel, i: nat, c: Chan)
    requires i < |k.sleepers|
  {
    k.sleepers[i] in k.chan && k.chan[k.sleepers[i]] == c
  }

  /** The scan of the two wakeup functions from position `i` on: a sleeper on `c`
      is taken out and made runnable. thread_wakeup then looks at the same
      position again (`again`); thread_wakeup_one goes to the next one. */
  function WakeFrom(k: Kernel, c: Chan, i: nat, again: bool, memOk: bool): Outcome<Kernel>
    decreases |k.sleepers| - i
  {
    if i >= |k.sleepers| then Ok(k)
    else if !SleepsOn(k, i, c) then WakeFrom(k, c, i + 1, again, memOk)
    else
      match Push(k.(sleepers := Without(k.sleepers, i)), k.sleepers[i], memOk)
      case Panic => Panic
      case Ok(k') => WakeFrom(k', c, if again then i else i + 1, again, memOk)
  }

  function Wakeup(k: Kernel, c: Chan, memOk: bool): Outcome<Kernel> {
    WakeFrom(k, c, 0, true, memOk)
  }

  function WakeupOne(k: Kernel, c: Chan, memOk: bool): Outcome<Kernel> {
    WakeFrom(k, c, 0, false, memOk)
  }

  // --------------------------------------------------------------- invariant

  function CurSeq(k: Kernel): seq<Tid> {
    if k.cur.Some? then [k.cur.value] else []
  }

  /** How often each thread occurs on the four lists together. */
  ghost function Census(k: Kernel): multiset<Tid> {
    multiset(CurSeq(k)) + multiset(k.runq) + multiset(k.sleepers) + multiset(k.zombies)
  }

  ghost predicate OneEach(m: multiset<Tid>, born: set<Tid>) {
    forall t :: t in m ==> m[t] == 1 && t in born
  }

  lemma FewerEach(m: multiset<Tid>, m': multiset<Tid>, born: set<Tid>)
    requires OneEach(m, born) && m' <= m
    ensures OneEach(m', born)
  {
    forall t | t in m'
      ensures m'[t] == 1 && t in born
    {
      assert m'[t] <= m[t];
    }
  }

  lemma OneMore(m: multiset<Tid>, born: set<Tid>, t: Tid)
    requires OneEach(m, born) && t !in born
    ensures OneEach(m + multiset{t}, born + {t})
  {
  }

  /** The four lists are disjoint and duplicate-free, the counter counts the
      threads that are not zombies, and the room reserved by thread_fork is there. */
  ghost predicate KInv(k: Kernel) {
    && OneEach(Census(k), k.born)
    && k.numthreads == |CurSeq(k)| + |k.runq| + |k.sleepers|
    && k.numthreads <= k.qsize && |k.runq| < k.qsize
    && |k.sleepers| <= k.smax && |k.zombies| <= k.zmax
    && (k.numthreads <= k.smax || (k.smax == 0 && k.numthreads <= 1))
  }

  /** The state thread_bootstrap and scheduler_bootstrap set up. */
  function Boot(me: Tid): Kernel {
    Kernel(Some(me), [], [], [], 1, map[], 32, 0, 0, {me})
  }

  lemma BootInv(me: Tid)
    ensures KInv(Boot(me))
  {
  }

  /** What a running thread reserves is enough for one more thread: making the
      new thread runnable needs no memory, so only the reservations can fail. */
  lemma ForkNeedsNoPush(k: Kernel, t: Tid, m: Mem)
    requires KInv(k) && k.cur.Some?
    ensures Reserve(k, m).1 ==> !QueueFull(Reserve(k, m).0)
    ensures Fork(k, t, m).1 <==> m.sleepers && m.zombies && (k.numthreads + 1 <= k.qsize || m.prealloc)
  {
  }

  /** A successful fork adds the new thread and leaves room for everybody to
      sleep; a failed one changes at most the room. */
  lemma ForkKeeps(k: Kernel, t: Tid, m: Mem)
    requires KInv(k) && k.cur.Some? && t !in k.born
    ensures KInv(Fork(k, t, m).0)
    ensures Fork(k, t, m).1 ==>
      var k' := Fork(k, t, m).0; k'.smax > 0 && k'.runq == k.runq + [t] && k'.numthreads == k.numthreads + 1
    ensures !Fork(k, t, m).1 ==>
      Fork(k, t, m).0 == k.(smax := Fork(k, t, m).0.smax, zmax := Fork(k, t, m).0.zmax)
  {
    hide OneEach, Census;
    ForkNeedsNoPush(k, t, m);
    var k' := Fork(k, t, m).0;
    if Fork(k, t, m).1 {
      CensusOfFork(k, k', t);
      OneMore(Census(k), k.born, t);
    } else {
      SameCensus(k, k');
    }
  }

  lemma SameCensus(k: Kernel, k': Kernel)
    requires k'.cur == k.cur && k'.runq == k.runq && k'.sleepers == k.sleepers && k'.zombies == k.zombies
    ensures Census(k') == Census(k)
  {
  }

  lemma CensusOfFork(k: Kernel, k': Kernel, t: Tid)
    requires k'.cur == k.cur && k'.runq == k.runq + [t] && k'.sleepers == k.sleepers && k'.zombies == k.zombies
    ensures Census(k') == Census(k) + multiset{t}
  {
  }

  lemma YieldKeeps(k: Kernel, memOk: bool)
    requires KInv(k) && Yield(k, memOk).Ok?
    ensures KInv(Yield(k, memOk).state)
  {
    hide OneEach;
    var k' := Yield(k, memOk).state;
    assert Census(k') == Census(k);
  }

  lemma SleepKeeps(k: Kernel, c: Chan, memOk: bool)
    requires KInv(k) && k.cur.Some? && Sleep(k, c, memOk).Ok?
    ensures KInv(Sleep(k, c, memOk).state)
    ensures Sleep(k, c, memOk).state.smax > 0
  {
    hide OneEach;
    var k' := Sleep(k, c, memOk).state;
    assert Census(k') == Census(k);
  }

  lemma ExitKeeps(k: Kernel, memOk: bool)
    requires KInv(k) && k.cur.Some? && Exit(k, memOk).Ok?
    ensures KInv(Exit(k, memOk).state)
  {
    hide OneEach;
    var k' := Exit(k, memOk).state;
    assert Census(k') == Census(k);
  }

  lemma PickKeeps(k: Kernel)
    requires KInv(k) && k.cur.None? && k.runq != []
    ensures KInv(Pick(k))
  {
    hide OneEach;
    var k' := Pick(k);
    assert k.runq == [k.runq[0]] + k'.runq;
    assert Census(k') == Census(k);
  }

  /** The running thread is on no list, so the zombies it disposes of are others. */
  lemma CurrentIsElsewhere(k: Kernel)
    requires KInv(k) && k.cur.Some?
    ensures k.cur.value !in k.zombies && k.cur.value !in k.runq && k.cur.value !in k.sleepers
  {
    var t := k.cur.value;
    assert Census(k)[t] == 1 + multiset(k.runq)[t] + multiset(k.sleepers)[t] + multiset(k.zombies)[t];
  }

  lemma ExorciseKeeps(k: Kernel)
    requires KInv(k)
    ensures KInv(Exorcise(k))
  {
    hide OneEach;
    assert Census(k) == Census(Exorcise(k)) + multiset(k.zombies);
    FewerEach(Census(k), Census(Exorcise(k)), k.born);
  }

  lemma WithoutCount(s: seq<Tid>, i: nat)
    requires i < |s|
    ensures multiset(s) == multiset(Without(s, i)) + multiset{s[i]}
  {
    assert s == s[..i] + [s[i]] + s[i + 1..];
  }

  lemma CensusOfTake(k: Kernel, k': Kernel, i: nat)
    requires i < |k.sleepers| && k'.cur == k.cur && k'.zombies == k.zombies
    requires k'.sleepers == Without(k.sleepers, i) && k'.runq == k.runq + [k.sleepers[i]]
    ensures Census(k') == Census(k)
  {
    WithoutCount(k.sleepers, i);
  }

  lemma TakeSleeper(k: Kernel, i: nat, memOk: bool)
    requires KInv(k) && i < |k.sleepers|
    ensures var r := Push(k.(sleepers := Without(k.sleepers, i)), k.sleepers[i], memOk);
      r.Ok? ==> KInv(r.state) && r.state.chan == k.chan
  {
    hide OneEach, Census;
    var r := Push(k.(sleepers := Without(k.sleepers, i)), k.sleepers[i], memOk);
    if r.Ok? {
      CensusOfTake(k, r.state, i);
    }
  }

  lemma {:induction false} WakeKeeps(k: Kernel, c: Chan, i: nat, again: bool, memOk: bool)
    requires KInv(k) && WakeFrom(k, c, i, again, memOk).Ok?
    ensures KInv(WakeFrom(k, c, i, again, memOk).state)
    decreases |k.sleepers| - i
  {
    if i < |k.sleepers| {
      if !SleepsOn(k, i, c) {
        WakeKeeps(k, c, i + 1, again, memOk);
      } else {
        TakeSleeper(k, i, memOk);
        var k' := Push(k.(sleepers := Without(k.sleepers, i)), k.sleepers[i], memOk).state;
        WakeKeeps(k', c, if again then i else i + 1, again, memOk);
      }
    }
  }
}
