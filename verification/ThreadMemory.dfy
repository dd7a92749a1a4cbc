/** Where the thread system can run out of memory at an inconvenient time: what a
    run says about the room for zombies, and runs from booting that lead there. */
module ThreadMemory {
  import opened Basics
  import opened ThreadModel
  import opened ThreadLaws
  import opened SynchModel
  import opened SynchRuns
  import PtrArray
  import RingQueue

  // --------------------------------------------------------- room for zombies

  /** A thread that runs again disposes of the zombies; a new one does not. */
  predicate Disposes(s: Sys, e: Event) {
    e == Event.Pick && s.k.runq != [] && s.k.runq[0] in s.pc && s.pc[s.k.runq[0]] != Fresh
  }

  /** The room for zombies that event `e` asks for, 0 if it asks for none. */
  function Asked(s: Sys, e: Event): int {
    match e
    case Exit(_) => |s.k.zombies| + 1
    case Fork(_, m) => if m.sleepers && m.zombies then s.k.numthreads + 1 else 0
    case _ => 0
  }

  lemma {:induction false} WakeKeepsZombies(k: Kernel, c: Chan, i: nat, again: bool, memOk: bool)
    requires WakeFrom(k, c, i, again, memOk).Ok?
    ensures var k' := WakeFrom(k, c, i, again, memOk).state; k'.zombies == k.zombies && k'.zmax == k.zmax
    decreases |k.sleepers| - i
  {
    if i < |k.sleepers| {
      if !SleepsOn(k, i, c) {
        WakeKeepsZombies(k, c, i + 1, again, memOk);
      } else {
        var p := Push(k.(sleepers := Without(k.sleepers, i)), k.sleepers[i], memOk);
        WakeKeepsZombies(p.state, c, if again then i else i + 1, again, memOk);
      }
    }
  }

  /** Between disposals only exits add zombies and only requests change the room. */
  lemma ZombieStep(s: Sys, e: Event, s': Sys)
    requires Next(s, e, s')
    ensures Disposes(s, e) ==> s'.k.zombies == [] && s'.k.zmax == if s.k.zmax > 16 then 0 else s.k.zmax
    ensures !Disposes(s, e) ==> |s'.k.zombies| == |s.k.zombies| + if e.Exit? then 1 else 0
    ensures !Disposes(s, e) ==> s'.k.zmax == PtrArray.Grown(s.k.zmax, Asked(s, e))
  {
    hide PtrArray.Grown, RingQueue.Doubled;
    match e
    case V(c, memOk) => WakeKeepsZombies(s.k, c, 0, true, memOk);
    case Release(c, memOk) => WakeKeepsZombies(s.k, c, 0, true, memOk);
    case Wake(c, memOk) => WakeKeepsZombies(s.k, c, 0, true, memOk);
    case WakeOne(c, memOk) => WakeKeepsZombies(s.k, c, 0, false, memOk);
    case _ =>
  }

  /** Exits among events i to j - 1. */
  function Exits(es: seq<Event>, i: nat, j: nat): nat
    requires i <= j <= |es|
  {
    if i == j then 0 else Exits(es, i, j - 1) + if es[j - 1].Exit? then 1 else 0
  }

  /** The most room that one of the events i to j - 1 asked for. */
  function Demand(ss: seq<Sys>, es: seq<Event>, i: nat, j: nat): int
    requires i <= j <= |es| < |ss|
  {
    if i == j then 0
    else
      var d, a := Demand(ss, es, i, j - 1), Asked(ss[j - 1], es[j - 1]);
      if d < a then a else d
  }

  ghost predicate NoDisposal(ss: seq<Sys>, es: seq<Event>, i: nat, j: nat)
    requires i <= j <= |es| < |ss|
  {
    forall n :: i <= n < j ==> !Disposes(ss[n], es[n])
  }

  /** On a stretch of a run without a disposal, the zombies are those at its start
      and one for each exit, and their table has grown for the largest demand. */
  lemma {:induction false} ZombieHistory(ss: seq<Sys>, es: seq<Event>, i: nat, j: nat)
    requires IsRun(ss, es) && i <= j <= |es| && NoDisposal(ss, es, i, j)
    ensures |ss[j].k.zombies| == |ss[i].k.zombies| + Exits(es, i, j)
    ensures ss[j].k.zmax == PtrArray.Grown(ss[i].k.zmax, Demand(ss, es, i, j))
    decreases j
  {
    hide Next, IsRun, Disposes, Asked;
    RunLength(ss, es);
    if i < j {
      NextAt(ss, es, j - 1);
      ZombieHistory(ss, es, i, j - 1);
      ZombieStep(ss[j - 1], es[j - 1], ss[j]);
      PtrArray.GrownTwice(ss[i].k.zmax, Demand(ss, es, i, j - 1), Asked(ss[j - 1], es[j - 1]));
    }
  }

  /** Exactly which exits need memory: those after which the zombies of the stretch
      would no longer fit what was asked for on it. */
  lemma WhichExitsNeedMemory(ss: seq<Sys>, es: seq<Event>, i: nat, j: nat)
    requires IsRun(ss, es) && SInv(ss[0]) && i <= j <= |es| && NoDisposal(ss, es, i, j)
    requires Enabled(ss[j], Event.Exit(false))
    ensures Step(ss[j], Event.Exit(false)).Panic? <==>
      |ss[i].k.zombies| + Exits(es, i, j) == PtrArray.Grown(ss[i].k.zmax, Demand(ss, es, i, j))
  {
    RunKeeps(ss, es, j);
    ZombieHistory(ss, es, i, j);
    ExitMemory(ss[j].k);
    hide SInv, IsRun, NoDisposal, Demand, Exits, PtrArray.Grown;
  }

  // -------------------------------------------------------------- reachability

  ghost function Start(): Sys {
    Sys(Boot(0), map[], map[], map[0 := Running])
  }

  ghost predicate Reachable(s: Sys) {
    exists ss: seq<Sys>, es: seq<Event> :: IsRun(ss, es) && ss[0] == Start() && ss[|es|] == s
  }

  lemma StartIsReachable()
    ensures Reachable(Start())
  {
    var ss, es: seq<Event> := [Start()], [];
    assert IsRun(ss, es) && ss[0] == Start() && ss[|es|] == Start();
  }

  lemma ReachNext(s: Sys, e: Event, s': Sys)
    requires Reachable(s) && Next(s, e, s')
    ensures Reachable(s')
  {
    hide Next;
    var ss: seq<Sys>, es: seq<Event> :| IsRun(ss, es) && ss[0] == Start() && ss[|es|] == s;
    var ss', es' := ss + [s'], es + [e];
    assert IsRun(ss', es') && ss'[0] == Start() && ss'[|es'|] == s';
  }

  lemma ReachInv(s: Sys)
    requires Reachable(s)
    ensures SInv(s)
  {
    hide Next, SInv;
    var ss: seq<Sys>, es: seq<Event> :| IsRun(ss, es) && ss[0] == Start() && ss[|es|] == s;
    BootSys(0);
    RunKeeps(ss, es, |es|);
  }

  // Single events, as far as the runs below need them.

  lemma GoToSleep(s: Sys, c: Chan)
    requires Runs(s) && c !in s.sems && c !in s.locks && ThreadModel.Sleep(s.k, c, false).Ok?
    ensures Next(s, SleepOn(c, false), s.(k := ThreadModel.Sleep(s.k, c, false).state, pc := s.pc[s.k.cur.value := Sleeping]))
  {
    hide ThreadModel.Sleep;
  }

  lemma PickNew(s: Sys)
    requires s.k.cur.None? && s.k.runq != [] && s.k.runq[0] in s.pc && s.pc[s.k.runq[0]] == Fresh
    ensures Next(s, Event.Pick, s.(k := ThreadModel.Pick(s.k), pc := s.pc[s.k.runq[0] := Running]))
  {
    hide ThreadModel.Pick;
  }

  lemma PickAgain(s: Sys)
    requires s.k.cur.None? && s.k.runq != [] && s.k.runq[0] in s.pc && s.pc[s.k.runq[0]] == Yielding
    ensures Next(s, Event.Pick, s.(k := Exorcise(ThreadModel.Pick(s.k)), pc := s.pc[s.k.runq[0] := Running]))
  {
    hide ThreadModel.Pick, Exorcise;
  }

  lemma GiveUp(s: Sys)
    requires Runs(s) && ThreadModel.Yield(s.k, true).Ok?
    ensures Next(s, Event.Yield(true), s.(k := ThreadModel.Yield(s.k, true).state, pc := s.pc[s.k.cur.value := Yielding]))
  {
    hide ThreadModel.Yield;
  }

  lemma ForkNew(s: Sys, t: Tid)
    requires Runs(s) && t !in s.k.born && s.k.qsize > 0 && ThreadModel.Fork(s.k, t, AMPLE).1
    ensures Next(s, Event.Fork(t, AMPLE), s.(k := ThreadModel.Fork(s.k, t, AMPLE).0, pc := s.pc[t := Fresh]))
  {
    hide ThreadModel.Fork;
  }

  lemma LeaveForGood(s: Sys)
    requires Runs(s) && ThreadModel.Exit(s.k, true).Ok?
    ensures Next(s, Event.Exit(true), s.(k := ThreadModel.Exit(s.k, true).state))
  {
    hide ThreadModel.Exit;
  }

  /** The numbers from `a` up to but not including `b`. */
  function Span(a: nat, b: nat): (r: seq<nat>)
    ensures |r| == (if a < b then b - a else 0) && forall i :: 0 <= i < |r| ==> r[i] == a + i
  {
    if a < b then Span(a, b - 1) + [b - 1] else []
  }

  const AMPLE: Mem := Mem(true, true, true, true)

  // ---------------------------------------------------- forking without an end

  /** Room for sleepers and zombies after `n` forks by the first thread. */
  function Room(n: nat): nat {
    if n == 0 then 0 else PtrArray.Grown(0, n + 1)
  }

  /** Thread `i` runs, those before it are at `p`, and those behind it are new. */
  ghost function Places(born: set<Tid>, i: Tid, p: Pc): map<Tid, Pc> {
    map t | t in born :: if t < i then p else if t == i then Running else Fresh
  }

  ghost function ForkedKernel(n: nat): Kernel {
    Kernel(Some(0), Span(1, n + 1), [], [], n + 1, map[], RingQueue.Doubled(32, n + 1), Room(n), Room(n), Below(n + 1))
  }

  /** The boot thread has forked `n` threads, which wait to run. */
  ghost function Forked(n: nat): Sys {
    Sys(ForkedKernel(n), map[], map[], Places(Below(n + 1), 0, Sleeping))
  }

  lemma RoomTwice(n: nat)
    ensures PtrArray.Grown(Room(n), n + 2) == Room(n + 1) >= n + 2
  {
    PtrArray.GrownTwice(0, n + 1, n + 2);
  }

  lemma ForkOnceKernel(n: nat)
    ensures ThreadModel.Fork(ForkedKernel(n), n + 1, AMPLE) == (ForkedKernel(n + 1), true)
  {
    RoomTwice(n);
    RingQueue.DoubledTwice(32, n + 1, n + 2);
    hide PtrArray.Grown, RingQueue.Doubled, Room;
    assert Span(1, n + 2) == Span(1, n + 1) + [n + 1];
    hide Span;
    assert Below(n + 2) == Below(n + 1) + {n + 1};
  }

  lemma ForkOnce(n: nat)
    ensures Next(Forked(n), Fork(n + 1, AMPLE), Forked(n + 1))
  {
    ForkOnceKernel(n);
    hide ThreadModel.Fork, RingQueue.Doubled, Room, Span;
    assert Places(Below(n + 1), 0, Sleeping)[n + 1 := Fresh] == Places(Below(n + 2), 0, Sleeping);
  }

  lemma ForkedNone()
    ensures Forked(0) == Start()
  {
    assert Below(1) == {0};
    assert Places({0}, 0, Sleeping) == map[0 := Running];
    assert Span(1, 1) == [];
  }

  lemma {:induction false} ForkedIsReachable(n: nat)
    ensures Reachable(Forked(n))
  {
    hide Reachable, Forked, Next;
    if n == 0 {
      ForkedNone();
      StartIsReachable();
    } else {
      ForkedIsReachable(n - 1);
      ForkOnce(n - 1);
      ReachNext(Forked(n - 1), Fork(n, AMPLE), Forked(n));
    }
  }

  /** The ring has just one slot for each of `n` threads. */
  predicate ExactRing(n: nat) {
    RingQueue.Doubled(32, n) == n
  }

  lemma ExactAt32()
    ensures ExactRing(32)
  {
  }

  /** After `n` forks with ample memory the boot thread's yield needs memory exactly
      when the ring has one slot for each of the n + 1 threads. */
  lemma YieldCanPanic(n: nat)
    ensures Reachable(Forked(n)) && Enabled(Forked(n), Yield(false))
    ensures Step(Forked(n), Yield(false)).Panic? <==> ExactRing(n + 1)
  {
    ForkedIsReachable(n);
    ReachInv(Forked(n));
    YieldMemory(Forked(n).k);
    hide Reachable, SInv, KInv;
  }

  // ------------------------------------------------------------ all fall asleep

  ghost function AllOn(ts: set<Tid>, c: Chan): map<Tid, Chan> {
    map t | t in ts :: c
  }

  /** The threads before `i` sleep on `c`, `i` runs, those behind it are new. */
  ghost function NappingKernel(n: nat, i: nat, c: Chan): Kernel {
    ForkedKernel(n).(cur := Some(i), runq := Span(i + 1, n + 1), sleepers := Span(0, i), chan := AllOn(Below(i), c))
  }

  ghost function Napping(n: nat, i: nat, c: Chan): Sys {
    Sys(NappingKernel(n, i, c), map[], map[], Places(Below(n + 1), i, Sleeping))
  }

  lemma NextInSpan(i: nat, n: nat)
    requires i < n
    ensures Span(0, i) + [i] == Span(0, i + 1)
    ensures Span(i + 1, n + 1) == [i + 1] + Span(i + 2, n + 1)
  {
  }

  lemma OneMoreOn(i: nat, c: Chan)
    ensures AllOn(Below(i), c)[i := c] == AllOn(Below(i + 1), c)
  {
  }

  lemma NextPlaces(n: nat, i: nat, p: Pc)
    requires i < n
    ensures i in Places(Below(n + 1), i, p) && Places(Below(n + 1), i, p)[i] == Running
    ensures i + 1 in Places(Below(n + 1), i, p) && Places(Below(n + 1), i, p)[i + 1] == Fresh
    ensures Places(Below(n + 1), i, p)[i := p][i + 1 := Running] == Places(Below(n + 1), i + 1, p)
  {
  }

  lemma NapKernel(n: nat, i: nat, c: Chan)
    requires i < n
    ensures var r := ThreadModel.Sleep(NappingKernel(n, i, c), c, false);
      r.Ok? && r.state.cur.None? && r.state.runq != [] && r.state.runq[0] == i + 1
      && ThreadModel.Pick(r.state) == NappingKernel(n, i + 1, c)
  {
    RoomIsEnough(n);
    NextInSpan(i, n);
    OneMoreOn(i, c);
    hide Room, PtrArray.Grown, RingQueue.Doubled, Below, Span, AllOn;
  }

  /** Thread `i` goes to sleep, and the next one runs for the first time. */
  lemma NapOnce(n: nat, i: nat, c: Chan)
    requires i < n && Reachable(Napping(n, i, c))
    ensures Reachable(Napping(n, i + 1, c))
  {
    assert NappingKernel(n, i, c).cur == Some(i);
    NapKernel(n, i, c);
    NextPlaces(n, i, Sleeping);
    hide Reachable, NappingKernel, Places, ThreadModel.Sleep, Below, ThreadModel.Pick, Next;
    var s := Napping(n, i, c);
    var mid := s.(k := ThreadModel.Sleep(s.k, c, false).state, pc := s.pc[i := Sleeping]);
    GoToSleep(s, c);
    PickNew(mid);
    ReachNext(s, SleepOn(c, false), mid);
    ReachNext(mid, Event.Pick, Napping(n, i + 1, c));
  }

  lemma RoomIsEnough(n: nat)
    requires n > 0
    ensures Room(n) > n && forall i: int :: i <= n + 1 ==> PtrArray.Grown(Room(n), i) == Room(n)
  {
  }

  lemma {:induction false} NappingIsReachable(n: nat, i: nat, c: Chan)
    requires n > 0 && i <= n
    ensures Reachable(Napping(n, i, c))
  {
    if i == 0 {
      ForkedIsReachable(n);
      assert NappingKernel(n, 0, c) == ForkedKernel(n) by { NobodyNaps(n, c); }
    } else {
      hide Reachable, Napping;
      NappingIsReachable(n, i - 1, c);
      NapOnce(n, i - 1, c);
    }
  }

  lemma NobodyNaps(n: nat, c: Chan)
    ensures NappingKernel(n, 0, c) == ForkedKernel(n)
  {
    assert AllOn(Below(0), c) == map[];
    assert Span(0, 0) == [];
  }

  ghost function AllAsleep(n: nat, c: Chan): Sys {
    Sys(ForkedKernel(n).(cur := None, runq := [], sleepers := Span(0, n + 1), chan := AllOn(Below(n + 1), c)),
        map[], map[], Places(Below(n + 1), n + 1, Sleeping))
  }

  lemma LastFallsAsleep(n: nat, c: Chan)
    requires n > 0
    ensures Next(Napping(n, n, c), SleepOn(c, false), AllAsleep(n, c))
  {
    RoomIsEnough(n);
    OneMoreOn(n, c);
    var s := Napping(n, n, c);
    assert Places(Below(n + 1), n, Sleeping)[n := Sleeping] == Places(Below(n + 1), n + 1, Sleeping);
    assert Span(0, n) + [n] == Span(0, n + 1);
    assert Runs(s);
    hide Next, Room, PtrArray.Grown, RingQueue.Doubled, AllOn, Places, Below, Span;
    GoToSleep(s, c);
  }

  lemma {:induction false} NobodyElse(s: seq<Tid>, chan: map<Tid, Chan>, c: Chan)
    requires forall i :: 0 <= i < |s| ==> Waits(chan, c, s[i])
    ensures Off(s, chan, c) == []
  {
    if s != [] {
      NobodyElse(s[1..], chan, c);
    }
  }

  /** All n + 1 threads fall asleep on one address; a wakeup taken in the idle loop
      needs memory exactly when the ring has one slot for each. */
  lemma IdleWakeupCanPanic(n: nat, c: Chan)
    requires n > 0
    ensures Reachable(AllAsleep(n, c)) && Enabled(AllAsleep(n, c), Wake(c, false))
    ensures Step(AllAsleep(n, c), Wake(c, false)).Panic? <==> ExactRing(n + 1)
  {
    hide Reachable, Next, KInv, Off, Wakeup, SInv;
    var s := AllAsleep(n, c);
    NappingIsReachable(n, n, c);
    LastFallsAsleep(n, c);
    ReachNext(Napping(n, n, c), SleepOn(c, false), s);
    ReachedKernel(s);
    WakeupMemory(s.k, c);
    NobodyElse(s.k.sleepers, s.k.chan, c);
  }

  lemma ReachedKernel(s: Sys)
    requires Reachable(s)
    ensures KInv(s.k)
  {
    ReachInv(s);
  }

  // --------------------------------------- a chain of threads, each forking the next

  function ChainRoom(n: nat): nat {
    if n == 0 then 0 else PtrArray.Grown(0, if n < 2 then 2 else n)
  }

  ghost function ChainKernel(n: nat): Kernel {
    Kernel(Some(n), [], [], Span(0, n), 1, map[], 32, if n == 0 then 0 else 2, ChainRoom(n), Below(n + 1))
  }

  /** Every thread before `n` forked its successor and exited. */
  ghost function Chain(n: nat): Sys {
    Sys(ChainKernel(n), map[], map[], Places(Below(n + 1), n, Running))
  }

  lemma ChainRoomGrows(n: nat)
    ensures PtrArray.Grown(PtrArray.Grown(ChainRoom(n), 2), n + 1) == ChainRoom(n + 1)
  {
    PtrArray.GrownTwice(ChainRoom(n), 2, n + 1);
    PtrArray.GrownTwice(0, if n < 2 then 2 else n, if 2 < n + 1 then n + 1 else 2);
  }

  ghost function ChainForked(n: nat): Kernel {
    ChainKernel(n).(runq := [n + 1], numthreads := 2, smax := 2, zmax := PtrArray.Grown(ChainRoom(n), 2), born := Below(n + 2))
  }

  lemma ChainForkKernel(n: nat)
    ensures ThreadModel.Fork(ChainKernel(n), n + 1, AMPLE) == (ChainForked(n), true)
  {
    assert PtrArray.Grown(if n == 0 then 0 else 2, 2) == 2;
    assert RingQueue.Doubled(32, 2) == 32;
    assert [] + [n + 1] == [n + 1];
    assert Below(n + 2) == Below(n + 1) + {n + 1};
    hide PtrArray.Grown, RingQueue.Doubled, Below, ChainRoom, Span;
  }

  lemma ChainExitKernel(n: nat)
    ensures var r := ThreadModel.Exit(ChainForked(n), true);
      r.Ok? && r.state.cur.None? && r.state.runq == [n + 1] && ThreadModel.Pick(r.state) == ChainKernel(n + 1)
  {
    ChainRoomGrows(n);
    hide PtrArray.Grown, Below, ChainRoom;
    assert Span(0, n + 1) == Span(0, n) + [n];
  }

  lemma ChainPlaces(n: nat)
    ensures Places(Below(n + 1), n, Running)[n + 1 := Fresh][n + 1 := Running] == Places(Below(n + 2), n + 1, Running)
    ensures n in Places(Below(n + 1), n, Running) && Places(Below(n + 1), n, Running)[n] == Running
    ensures n + 1 !in Below(n + 1)
  {
  }

  lemma ChainGrows(n: nat)
    requires Reachable(Chain(n))
    ensures Reachable(Chain(n + 1))
  {
    ChainForkKernel(n);
    ChainExitKernel(n);
    ChainPlaces(n);
    var s := Chain(n);
    var s1 := s.(k := ChainForked(n), pc := s.pc[n + 1 := Fresh]);
    assert Runs(s) && Runs(s1);
    hide Reachable, Next, Places, ThreadModel.Fork, ThreadModel.Exit, ThreadModel.Pick, Below;
    ForkNew(s, n + 1);
    LeaveForGood(s1);
    var s2 := s1.(k := ThreadModel.Exit(s1.k, true).state);
    PickNew(s2);
    ReachNext(s, Event.Fork(n + 1, AMPLE), s1);
    ReachNext(s1, Event.Exit(true), s2);
    ReachNext(s2, Event.Pick, Chain(n + 1));
  }

  lemma ChainStart()
    ensures Chain(0) == Start()
  {
    assert Below(1) == {0};
    assert Places({0}, 0, Running) == map[0 := Running];
    assert Span(0, 0) == [];
  }

  lemma {:induction false} ChainIsReachable(n: nat)
    ensures Reachable(Chain(n))
  {
    hide Reachable, Chain;
    if n == 0 {
      ChainStart();
      StartIsReachable();
    } else {
      ChainIsReachable(n - 1);
      ChainGrows(n - 1);
    }
  }

  /** Nothing is ever disposed of on this run, although every fork reserved room:
      the exit of thread `n` needs memory exactly when the table has just `n` places,
      which is so for 2, 6 and 14. */
  lemma ChainCanPanic(n: nat)
    ensures Reachable(Chain(n)) && Enabled(Chain(n), Event.Exit(false))
    ensures Step(Chain(n), Event.Exit(false)).Panic? <==> ChainRoom(n) == n
  {
    hide Reachable, KInv, ChainRoom;
    assert Runs(Chain(n));
    ChainIsReachable(n);
    ReachedKernel(Chain(n));
    ExitMemory(Chain(n).k);
  }

  lemma ChainRooms()
    ensures ChainRoom(2) == 2 && ChainRoom(6) == 6 && ChainRoom(14) == 14
  {
    assert PtrArray.Grown(0, 6) == PtrArray.Grown(2, 6) == PtrArray.Grown(6, 6);
    assert PtrArray.Grown(0, 14) == PtrArray.Grown(2, 14) == PtrArray.Grown(6, 14) == PtrArray.Grown(14, 14);
  }

  // ---------------------------------------------------- room that disposing gives up

  ghost function DrainPlaces(born: set<Tid>, i: nat): map<Tid, Pc> {
    map t | t in born :: if t == 0 then Yielding else if t <= i then Running else Fresh
  }

  ghost function DrainKernel(n: nat, i: nat, q: nat): Kernel
    requires i <= n
  {
    ForkedKernel(n).(cur := None, runq := Span(i + 1, n + 1) + [0], zombies := Span(1, i + 1), numthreads := n + 1 - i, qsize := q)
  }

  /** The boot thread forked `n` threads and yielded, and the first `i` of them exited. */
  ghost function Draining(n: nat, i: nat, q: nat): Sys
    requires i <= n
  {
    Sys(DrainKernel(n, i, q), map[], map[], DrainPlaces(Below(n + 1), i))
  }

  lemma DrainPlacesStep(n: nat, i: nat)
    requires i < n
    ensures var p := DrainPlaces(Below(n + 1), i);
      i + 1 in p && p[i + 1] == Fresh && p[i + 1 := Running] == DrainPlaces(Below(n + 1), i + 1)
  {
  }

  lemma DrainKernelStep(n: nat, i: nat, q: nat)
    requires i < n
    ensures var k := DrainKernel(n, i, q);
      && k.cur.None? && k.runq != [] && k.runq[0] == i + 1
      && ThreadModel.Exit(ThreadModel.Pick(k), true) == Ok(DrainKernel(n, i + 1, q))
  {
    RoomIsEnough(n);
    hide PtrArray.Grown, RingQueue.Doubled, Room;
    assert Span(i + 1, n + 1) + [0] == [i + 1] + (Span(i + 2, n + 1) + [0]);
    assert Span(1, i + 2) == Span(1, i + 1) + [i + 1];
  }

  lemma DrainOnce(n: nat, i: nat, q: nat)
    requires i < n && Reachable(Draining(n, i, q))
    ensures Reachable(Draining(n, i + 1, q))
  {
    DrainKernelStep(n, i, q);
    DrainPlacesStep(n, i);
    hide Reachable, Next, DrainPlaces, DrainKernel, ThreadModel.Exit, Below;
    var s := Draining(n, i, q);
    PickNew(s);
    var s1 := s.(k := ThreadModel.Pick(s.k), pc := s.pc[i + 1 := Running]);
    assert Runs(s1);
    hide ThreadModel.Pick;
    LeaveForGood(s1);
    ReachNext(s, Event.Pick, s1);
    ReachNext(s1, Event.Exit(true), Draining(n, i + 1, q));
  }

  /** The size of the ring once the boot thread is queued as well. */
  function RingFor(n: nat): nat {
    var q := RingQueue.Doubled(32, n + 1);
    if n + 1 >= q then 2 * q else q
  }

  lemma FirstYields(n: nat)
    ensures 0 in Places(Below(n + 1), 0, Sleeping) && Places(Below(n + 1), 0, Sleeping)[0] == Running
    ensures Places(Below(n + 1), 0, Sleeping)[0 := Yielding] == DrainPlaces(Below(n + 1), 0)
    ensures Span(1, 1) == []
  {
  }

  lemma DrainStart(n: nat)
    ensures Reachable(Draining(n, 0, RingFor(n)))
  {
    hide Reachable, Next, Places, DrainPlaces, Below, RingQueue.Doubled, Room, Span;
    var s := Forked(n);
    ForkedIsReachable(n);
    FirstYields(n);
    GiveUp(s);
    ReachNext(s, Event.Yield(true), Draining(n, 0, RingFor(n)));
  }

  lemma {:induction false} DrainingIsReachable(n: nat, i: nat)
    requires i <= n
    ensures Reachable(Draining(n, i, RingFor(n)))
  {
    hide Reachable, Draining, RingFor;
    if i == 0 {
      DrainStart(n);
    } else {
      DrainingIsReachable(n, i - 1);
      DrainOnce(n, i - 1, RingFor(n));
    }
  }

  /** All threads but the boot thread exited, and it disposed of them. */
  ghost function Drained(n: nat): Sys {
    Sys(ForkedKernel(n).(runq := [], numthreads := 1, qsize := RingFor(n), zmax := if Room(n) > 16 then 0 else Room(n)),
        map[], map[], DrainPlaces(Below(n + 1), n)[0 := Running])
  }

  lemma DrainedIsReachable(n: nat)
    ensures Reachable(Drained(n))
  {
    DrainingIsReachable(n, n);
    var s := Draining(n, n, RingFor(n));
    assert Span(n + 1, n + 1) == [];
    assert s.k.runq == [0] && s.k.runq[1..] == [];
    assert 0 in s.pc && s.pc[0] == Yielding;
    hide Reachable, Next, DrainPlaces, Below, RingQueue.Doubled, Room, RingFor;
    PickAgain(s);
    ReachNext(s, Event.Pick, Drained(n));
  }

  lemma RoomAbove16(n: nat)
    requires n > 0
    ensures Room(n) > 16 <==> n >= 14
  {
    var g := PtrArray.Grown(0, n + 1);
    assert g == PtrArray.Grown(2, n + 1);
    if n + 1 > 2 {
      assert g == PtrArray.Grown(6, n + 1);
      if n + 1 > 6 {
        assert g == PtrArray.Grown(14, n + 1);
        if n + 1 > 14 {
          assert g == PtrArray.Grown(30, n + 1) >= 30;
        }
      }
    }
  }

  /** The boot thread forks `n` threads, all exit, it runs again and disposes of them:
      its own exit then needs memory exactly if it had forked 14 or more. */
  lemma DrainCanPanic(n: nat)
    requires n > 0
    ensures Reachable(Drained(n)) && Enabled(Drained(n), Event.Exit(false))
    ensures Step(Drained(n), Event.Exit(false)).Panic? <==> n >= 14
  {
    hide Reachable, KInv;
    assert Runs(Drained(n));
    DrainedIsReachable(n);
    ReachedKernel(Drained(n));
    ExitMemory(Drained(n).k);
    RoomAbove16(n);
    RoomIsEnough(n);
    hide Room, RingFor;
  }
}
