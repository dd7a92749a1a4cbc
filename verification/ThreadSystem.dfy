/** The thread system with its real tables: the run queue is a ring, sleepers and
    zombies are resizable arrays. Every section that runs with interrupts off is
    one method, proved to do what the transition system says. A result of `false`
    stands for a failed assertion or a panic. */
module ThreadSystem {
  import opened Basics
  import opened ThreadModel
  import opened SynchModel
  import RingQueue
  import PtrArray

  class System {
    var cur: Option<Tid>
    const runqueue: RingQueue.Ring<Tid>
    const sleepers: PtrArray.Array<Tid>
    const zombies: PtrArray.Array<Tid>
    var numthreads: int
    var chan: map<Tid, Chan>
    var sems: map<Chan, int>
    var locks: map<Chan, LockState>
    var pc: map<Tid, Pc>
    ghost var born: set<Tid>

    ghost function Footprint(): set<object?>
      reads this, runqueue, sleepers, zombies
    {
      {this, runqueue, runqueue.data, sleepers, sleepers.v, zombies, zombies.v}
    }

    ghost predicate Valid()
      reads this, Footprint()
    {
      && runqueue.Valid() && sleepers.Valid() && zombies.Valid() && sleepers != zombies
      && runqueue.data != sleepers.v && runqueue.data != zombies.v
      && (sleepers.v != null ==> sleepers.v != zombies.v)
    }

    /** Storage is only ever replaced by newly allocated storage. */
    twostate predicate SameOrNewTables()
      reads this, runqueue, sleepers, zombies
    {
      && (runqueue.data == old(runqueue.data) || fresh(runqueue.data))
      && (sleepers.v == old(sleepers.v) || fresh(sleepers.v))
      && (zombies.v == old(zombies.v) || fresh(zombies.v))
    }

    ghost function K(): Kernel
      requires Valid()
      reads this, Footprint()
    {
      Kernel(cur, runqueue.Contents(), sleepers.Contents(), zombies.Contents(), numthreads, chan,
             runqueue.size, sleepers.max, zombies.max, born)
    }

    ghost function View(): Sys
      requires Valid()
      reads this, Footprint()
    {
      Sys(K(), sems, locks, pc)
    }

    /** thread_bootstrap and scheduler_bootstrap. */
    constructor (me: Tid)
      ensures Valid() && View() == Sys(Boot(me), map[], map[], map[me := Running])
    {
      cur, numthreads, born := Some(me), 1, {me};
      chan, sems, locks, pc := map[], map[], map[], map[me := Running];
      runqueue := new RingQueue.Ring(32);
      sleepers := new PtrArray.Array();
      zombies := new PtrArray.Array();
    }

    method MakeRunnable(t: Tid, memOk: bool) returns (code: int)
      requires Valid()
      modifies runqueue, runqueue.data
      ensures Valid() && (runqueue.data == old(runqueue.data) || fresh(runqueue.data))
      ensures code == 0 <==> Push(old(K()), t, memOk).Ok?
      ensures if code == 0 then Push(old(K()), t, memOk) == Ok(K()) else K() == old(K())
    {
      code := runqueue.AddTail(t, memOk);
    }

    /** Take sleeper number `i` off the table and queue it. */
    method Rouse(i: nat, memOk: bool) returns (ok: bool)
      requires Valid() && i < sleepers.num
      modifies sleepers, sleepers.v, runqueue, runqueue.data
      ensures Valid() && sleepers.v == old(sleepers.v) && (runqueue.data == old(runqueue.data) || fresh(runqueue.data))
      ensures sleepers.num == old(sleepers.num) - 1
      ensures var r := Push(old(K()).(sleepers := Without(old(K()).sleepers, i)), old(K()).sleepers[i], memOk);
        if ok then r == Ok(K()) else r == Panic
    {
      var t := sleepers.v[i];
      assert t == sleepers.Contents()[i];
      sleepers.Remove(i);
      var result := MakeRunnable(t, memOk);
      ok := result == 0;
    }

    /** thread_wakeup (`again`) and thread_wakeup_one: scan the sleepers. */
    method WakeScan(c: Chan, again: bool, memOk: bool) returns (ok: bool)
      requires Valid()
      modifies sleepers, sleepers.v, runqueue, runqueue.data
      ensures Valid() && sleepers.v == old(sleepers.v) && (runqueue.data == old(runqueue.data) || fresh(runqueue.data))
      ensures var r := WakeFrom(old(K()), c, 0, again, memOk);
        if ok then r == Ok(K()) else r == Panic
    {
      hide Push, RingQueue.Items;
      var i := 0;
      while i < sleepers.num
        invariant Valid() && 0 <= i && sleepers.v == old(sleepers.v)
        invariant runqueue.data == old(runqueue.data) || fresh(runqueue.data)
        invariant WakeFrom(K(), c, i, again, memOk) == WakeFrom(old(K()), c, 0, again, memOk)
        decreases sleepers.num - i
      {
        var t := sleepers.v[i];
        assert t == K().sleepers[i];
        if t in chan && chan[t] == c {
          ok := Rouse(i, memOk);
          if !ok {
            return;
          }
          if !again {
            i := i + 1;
          }
        } else {
          i := i + 1;
        }
      }
      ok := true;
    }

    /** The three reservations of thread_fork, in order, up to the first that fails. */
    method ReserveRoom(m: Mem) returns (code: int)
      requires Valid()
      modifies sleepers, zombies, runqueue, runqueue.data
      ensures Valid() && SameOrNewTables()
      ensures var (k, ok) := Reserve(old(K()), m); (code == 0 <==> ok) && K() == k
    {
      hide PtrArray.Grown, RingQueue.Doubled, RingQueue.Items;
      code := sleepers.Preallocate(numthreads + 1, m.sleepers);
      if code != 0 {
        return;
      }
      code := zombies.Preallocate(numthreads + 1, m.zombies);
      if code != 0 {
        return;
      }
      code := runqueue.Preallocate(numthreads + 1, m.prealloc);
    }

    /** thread_fork: reserve room for one more thread everywhere, then queue it. */
    method ThreadFork(t: Tid, m: Mem) returns (code: int)
      requires Valid()
      modifies Footprint()
      ensures Valid() && SameOrNewTables()
      ensures var (k, ok) := ThreadModel.Fork(old(K()), t, m);
        (code == 0 <==> ok) && View() == old(View()).(k := k, pc := if ok then old(pc)[t := Fresh] else old(pc))
    {
      hide Reserve, Push, RingQueue.Items;
      code := ReserveRoom(m);
      if code != 0 {
        return;
      }
      ghost var k1 := K();
      code := MakeRunnable(t, m.push);
      if code != 0 {
        return;
      }
      assert Push(k1, t, m.push) == Ok(K());
      Admit(t);
    }

    /** Count the new thread. */
    method Admit(t: Tid)
      requires Valid()
      modifies this`numthreads, this`born, this`pc
      ensures Valid() && pc == old(pc)[t := Fresh]
      ensures K() == old(K()).(numthreads := old(numthreads) + 1, born := old(born) + {t})
    {
      numthreads := numthreads + 1;
      born := born + {t};
      pc := pc[t := Fresh];
    }

    /** The first half of mi_switch(S_READY), as thread_yield calls it. */
    method YieldAway(memOk: bool) returns (ok: bool)
      requires Valid() && Enabled(View(), Yield(memOk))
      modifies Footprint()
      ensures Valid() && SameOrNewTables()
      ensures if ok then Step(old(View()), Yield(memOk)) == Ok(View()) else Step(old(View()), Yield(memOk)) == Panic
    {
      if cur.None? {
        return true;
      }
      var t := cur.value;
      cur := None;
      var result := MakeRunnable(t, memOk);
      pc := pc[t := Yielding];
      ok := result == 0;
    }

    /** thread_sleep up to the scheduler, with the wait to go on at `p`. */
    method SleepAway(c: Chan, p: Pc, memOk: bool) returns (ok: bool)
      requires Valid() && cur.Some?
      modifies Footprint()
      ensures Valid() && SameOrNewTables()
      ensures var r := Leave(old(View()), ThreadModel.Sleep(old(K()), c, memOk), p);
        if ok then r == Ok(View()) else r == Panic
    {
      hide PtrArray.Grown;
      var t := cur.value;
      chan := chan[t := c];
      cur := None;
      var result := sleepers.Add(t, memOk);
      pc := pc[t := p];
      ok := result == 0;
    }

    /** thread_exit up to the scheduler. */
    method ExitAway(memOk: bool) returns (ok: bool)
      requires Valid() && Enabled(View(), Exit(memOk))
      modifies Footprint()
      ensures Valid() && SameOrNewTables()
      ensures if ok then Step(old(View()), Exit(memOk)) == Ok(View()) else Step(old(View()), Exit(memOk)) == Panic
    {
      if numthreads <= 0 {
        return false;
      }
      numthreads := numthreads - 1;
      var t := cur.value;
      cur := None;
      var result := zombies.Add(t, memOk);
      ok := result == 0;
    }

    /** exorcise: dispose of all zombies, none of which is the running thread. */
    method DisposeZombies()
      requires Valid() && KInv(K())
      modifies zombies
      ensures Valid() && (zombies.v == null || zombies.v == old(zombies.v) || fresh(zombies.v))
      ensures K() == Exorcise(old(K()))
    {
      if cur.Some? {
        CurrentIsElsewhere(K());
      }
      hide KInv, RingQueue.Items;
      var i := 0;
      while i < zombies.num
        modifies {}
        invariant 0 <= i <= zombies.num
      {
        var z := zombies.v[i];
        assert z in zombies.Contents();
        assert cur != Some(z);
        i := i + 1;
      }
      var result := zombies.SetSize(0, false);
      assert result == 0;
    }

    /** The scheduler takes the head of the run queue. */
    method TakeNext() returns (t: Tid)
      requires Valid() && cur.None? && !runqueue.Empty()
      modifies this`cur, runqueue
      ensures Valid() && runqueue.data == old(runqueue.data)
      ensures old(K()).runq != [] && t == old(K()).runq[0] && K() == ThreadModel.Pick(old(K()))
    {
      t := runqueue.RemHead();
      cur := Some(t);
      assert old(K()).runq == [t] + K().runq;
    }

    /** The second half of mi_switch: the picked thread goes on where it stopped. */
    method SwitchTo()
      requires Valid() && KInv(K()) && Enabled(View(), Event.Pick)
      modifies Footprint()
      ensures Valid()
      ensures View() == PickAndGo(old(View()))
    {
      hide KInv, RingQueue.Items;
      runqueue.EmptyIffNoContents();
      PickKeeps(K());
      var t := TakeNext();
      var p := if t in pc then pc[t] else Fresh;
      if p != Fresh {
        DisposeZombies();
      }
      Continue(t, p);
    }

    /** Back from mi_switch: a thread that slept forgets its sleep address, and
        one that waits for nothing runs its own code. */
    method Continue(t: Tid, p: Pc)
      requires Valid()
      modifies this`chan, this`pc
      ensures Valid()
      ensures K() == old(K()).(chan := if p.Sleeping? || p.InP? || p.InAcquire? then old(chan) - {t} else old(chan))
      ensures pc == if p.Fresh? || p.Yielding? || p.Sleeping? then old(pc)[t := Running] else old(pc)
    {
      if p.Sleeping? || p.InP? || p.InAcquire? {
        chan := chan - {t};
      }
      if p.Fresh? || p.Yielding? || p.Sleeping? {
        pc := pc[t := Running];
      }
    }

    /** sem_create: a semaphore with the given count, unless there is no memory. */
    method SemNew(c: Chan, count: int, memOk: bool) returns (ok: bool)
      requires Valid() && Enabled(View(), SemCreate(c, count))
      modifies this`sems
      ensures Valid() && ok == memOk
      ensures if ok then Step(old(View()), SemCreate(c, count)) == Ok(View()) else View() == old(View())
      ensures ok ==> sems == old(sems)[c := count]
    {
      if !memOk {
        return false;
      }
      sems := sems[c := count];
      return true;
    }

    /** lock_create: a lock that nobody holds, unless there is no memory. */
    method LockNew(c: Chan, memOk: bool) returns (ok: bool)
      requires Valid() && Enabled(View(), LockCreate(c))
      modifies this`locks
      ensures Valid() && ok == memOk
      ensures if ok then Step(old(View()), LockCreate(c)) == Ok(View()) else View() == old(View())
      ensures ok ==> c in locks && !locks[c].isHeld && locks[c].holder.None?
    {
      if !memOk {
        return false;
      }
      locks := locks[c := LockState(false, None)];
      return true;
    }

    /** One turn of the wait loop of P, and the decrement behind it. */
    method TryDown(c: Chan, memOk: bool) returns (ok: bool)
      requires Valid() && cur.Some? && c in sems
      modifies Footprint()
      ensures Valid() && SameOrNewTables()
      ensures var r := TryP(old(View()), c, memOk); if ok then r == Ok(View()) else r == Panic
    {
      if sems[c] == 0 {
        ok := SleepAway(c, InP(c), memOk);
        return;
      }
      if !(sems[c] > 0) {
        return false;
      }
      sems, pc := sems[c := sems[c] - 1], pc[cur.value := Running];
      return true;
    }

    /** One turn of the wait loop of lock_acquire, and what follows it. */
    method TryLock(c: Chan, memOk: bool) returns (ok: bool)
      requires Valid() && cur.Some? && c in locks
      modifies Footprint()
      ensures Valid() && SameOrNewTables()
      ensures var r := TryAcquire(old(View()), c, memOk); if ok then r == Ok(View()) else r == Panic
    {
      if locks[c].isHeld {
        ok := SleepAway(c, InAcquire(c), memOk);
        return;
      }
      locks, pc := locks[c := LockState(true, cur)], pc[cur.value := Running];
      return true;
    }

    /** V: count up and wake everybody who waits. */
    method SemUp(c: Chan, memOk: bool) returns (ok: bool)
      requires Valid() && Enabled(View(), V(c, memOk))
      modifies Footprint()
      ensures Valid() && SameOrNewTables()
      ensures if ok then Step(old(View()), V(c, memOk)) == Ok(View()) else Step(old(View()), V(c, memOk)) == Panic
    {
      if sems[c] == INT_MAX || sems[c] + 1 <= 0 {
        return false;
      }
      sems := sems[c := sems[c] + 1];
      ok := WakeScan(c, true, memOk);
    }

    method LockAcquire(c: Chan, memOk: bool) returns (ok: bool)
      requires Valid() && Enabled(View(), Acquire(c, memOk))
      modifies Footprint()
      ensures Valid() && SameOrNewTables()
      ensures if ok then Step(old(View()), Acquire(c, memOk)) == Ok(View()) else Step(old(View()), Acquire(c, memOk)) == Panic
    {
      hide TryAcquire;
      if locks[c].holder == cur {
        return false;
      }
      ok := TryLock(c, memOk);
    }

    method LockRelease(c: Chan, memOk: bool) returns (ok: bool)
      requires Valid() && Enabled(View(), Release(c, memOk))
      modifies Footprint()
      ensures Valid() && SameOrNewTables()
      ensures if ok then Step(old(View()), Release(c, memOk)) == Ok(View()) else Step(old(View()), Release(c, memOk)) == Panic
    {
      if locks[c].holder != cur {
        return false;
      }
      locks := locks[c := LockState(false, None)];
      ok := WakeScan(c, true, memOk);
    }
  }
}
