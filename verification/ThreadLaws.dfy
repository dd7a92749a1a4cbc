/** What the wakeup scans amount to, and when the thread system needs memory. */
module ThreadLaws {
  import opened Basics
  import opened ThreadModel
  import PtrArray

  predicate Waits(chan: map<Tid, Chan>, c: Chan, t: Tid) {
    t in chan && chan[t] == c
  }

  /** The threads of `s` that sleep on `c`, in order. */
  function On(s: seq<Tid>, chan: map<Tid, Chan>, c: Chan): seq<Tid> {
    if s == [] then [] else if Waits(chan, c, s[0]) then [s[0]] + On(s[1..], chan, c) else On(s[1..], chan, c)
  }

  /** The threads of `s` that do not, in order. */
  function Off(s: seq<Tid>, chan: map<Tid, Chan>, c: Chan): seq<Tid> {
    if s == [] then [] else if Waits(chan, c, s[0]) then Off(s[1..], chan, c) else [s[0]] + Off(s[1..], chan, c)
  }

  /** The two are the sequence, split: the same threads, each as often. */
  lemma {:induction false} OnOffCount(s: seq<Tid>, chan: map<Tid, Chan>, c: Chan)
    ensures multiset(On(s, chan, c)) + multiset(Off(s, chan, c)) == multiset(s)
  {
    if s != [] {
      assert s == [s[0]] + s[1..];
      OnOffCount(s[1..], chan, c);
    }
  }

  lemma {:induction false} OnOffMembers(s: seq<Tid>, chan: map<Tid, Chan>, c: Chan)
    ensures |On(s, chan, c)| + |Off(s, chan, c)| == |s|
    ensures forall t :: t in On(s, chan, c) <==> t in s && Waits(chan, c, t)
    ensures forall t :: t in Off(s, chan, c) <==> t in s && !Waits(chan, c, t)
  {
    if s != [] {
      OnOffMembers(s[1..], chan, c);
      assert forall t :: t in s <==> t == s[0] || t in s[1..];
    }
  }

  lemma SuffixAfterRemoval(s: seq<Tid>, i: nat)
    requires i < |s|
    ensures Without(s, i)[..i] == s[..i] && Without(s, i)[i..] == s[i + 1..]
  {
  }

  lemma SplitStep(s: seq<Tid>, i: nat, chan: map<Tid, Chan>, c: Chan)
    requires i < |s|
    ensures Waits(chan, c, s[i]) ==>
      On(s[i..], chan, c) == [s[i]] + On(s[i + 1..], chan, c) && Off(s[i..], chan, c) == Off(s[i + 1..], chan, c)
    ensures !Waits(chan, c, s[i]) ==>
      On(s[i..], chan, c) == On(s[i + 1..], chan, c) && Off(s[i..], chan, c) == [s[i]] + Off(s[i + 1..], chan, c)
  {
    assert s[i..][1..] == s[i + 1..];
  }

  lemma Reassociate(a: seq<Tid>, t: Tid, b: seq<Tid>)
    ensures a + [t] + b == a + ([t] + b)
  {
  }

  lemma {:induction false} WakeFromSplits(k: Kernel, c: Chan, i: nat, memOk: bool)
    requires i <= |k.sleepers|
    ensures var r := WakeFrom(k, c, i, true, memOk);
      r.Ok? ==> r.state == k.(runq := k.runq + On(k.sleepers[i..], k.chan, c),
                              sleepers := k.sleepers[..i] + Off(k.sleepers[i..], k.chan, c),
                              qsize := r.state.qsize)
    decreases |k.sleepers| - i
  {
    var s := k.sleepers;
    if i == |s| {
      assert s[..i] + Off(s[i..], k.chan, c) == s;
      assert k.runq + On(s[i..], k.chan, c) == k.runq;
    } else {
      SplitStep(s, i, k.chan, c);
      hide On, Off;
      if !SleepsOn(k, i, c) {
        WakeFromSplits(k, c, i + 1, memOk);
        assert s[..i + 1] == s[..i] + [s[i]];
        Reassociate(s[..i], s[i], Off(s[i + 1..], k.chan, c));
      } else {
        var p := Push(k.(sleepers := Without(s, i)), s[i], memOk);
        if p.Ok? {
          SuffixAfterRemoval(s, i);
          WakeFromSplits(p.state, c, i, memOk);
          Reassociate(k.runq, s[i], On(s[i + 1..], k.chan, c));
        }
      }
    }
  }

  /** The scan needs memory exactly when the woken threads do not fit. */
  lemma {:induction false} WakeFromMemory(k: Kernel, c: Chan, i: nat)
    requires i <= |k.sleepers| && |k.runq| < k.qsize
    ensures var n := |k.runq| + |On(k.sleepers[i..], k.chan, c)|; var r := WakeFrom(k, c, i, true, false);
      (r.Panic? <==> n >= k.qsize) && (r.Ok? ==> r.state.qsize == k.qsize)
    decreases |k.sleepers| - i
  {
    var s := k.sleepers;
    if i < |s| {
      assert s[i..] == [s[i]] + s[i + 1..];
      if !SleepsOn(k, i, c) {
        WakeFromMemory(k, c, i + 1);
      } else {
        var p := Push(k.(sleepers := Without(s, i)), s[i], false);
        if p.Ok? {
          SuffixAfterRemoval(s, i);
          WakeFromMemory(p.state, c, i);
        }
      }
    }
  }

  lemma {:induction false} MemoryIsEnough(k: Kernel, c: Chan, i: nat, again: bool)
    ensures WakeFrom(k, c, i, again, true).Ok?
    decreases |k.sleepers| - i
  {
    if i < |k.sleepers| {
      if !SleepsOn(k, i, c) {
        MemoryIsEnough(k, c, i + 1, again);
      } else {
        var p := Push(k.(sleepers := Without(k.sleepers, i)), k.sleepers[i], true);
        MemoryIsEnough(p.state, c, if again then i else i + 1, again);
      }
    }
  }

  /** thread_wakeup takes exactly the sleepers on `c`, in the order they went to
      sleep, puts them behind the runnable threads in that order, and leaves the
      other sleepers in order. */
  lemma WakeupSplits(k: Kernel, c: Chan, memOk: bool)
    requires Wakeup(k, c, memOk).Ok?
    ensures var k' := Wakeup(k, c, memOk).state;
      k' == k.(runq := k.runq + On(k.sleepers, k.chan, c), sleepers := Off(k.sleepers, k.chan, c), qsize := k'.qsize)
  {
    WakeFromSplits(k, c, 0, memOk);
    assert k.sleepers[0..] == k.sleepers;
    assert k.sleepers[..0] + Off(k.sleepers, k.chan, c) == Off(k.sleepers, k.chan, c);
  }

  /** thread_wakeup needs memory exactly when it would queue every live thread
      and the ring has one slot for each, one short of what it can hold. A thread
      that runs can always wake others without memory. */
  lemma WakeupMemory(k: Kernel, c: Chan)
    requires KInv(k)
    ensures Wakeup(k, c, true).Ok?
    ensures Wakeup(k, c, false).Panic? <==>
      k.cur.None? && k.numthreads == k.qsize && Off(k.sleepers, k.chan, c) == []
    ensures k.cur.Some? ==> Wakeup(k, c, false).Ok? && Wakeup(k, c, false).state.qsize == k.qsize
  {
    hide OneEach, Census;
    OnOffMembers(k.sleepers, k.chan, c);
    MemoryIsEnough(k, c, 0, true);
    WakeFromMemory(k, c, 0);
    assert k.sleepers[0..] == k.sleepers;
  }

  /** Going to sleep needs memory only before the first thread was forked. */
  lemma SleepMemory(k: Kernel, c: Chan)
    requires KInv(k) && k.cur.Some?
    ensures Sleep(k, c, false).Panic? <==> k.smax == 0
    ensures k.smax > 0 ==> Sleep(k, c, false).state.smax == k.smax
  {
  }

  /** Exiting needs memory exactly when the zombies fill their table. */
  lemma ExitMemory(k: Kernel)
    requires KInv(k) && k.cur.Some?
    ensures Exit(k, true).Ok?
    ensures Exit(k, false).Panic? <==> |k.zombies| == k.zmax
  {
    assert |CurSeq(k)| == 1;
  }

  /** A thread that disposed of the zombies and then exits needs memory exactly
      when their table had no room, or room for more than 16, which is given up. */
  lemma ExitAfterDisposal(k: Kernel)
    requires KInv(k) && k.cur.Some?
    ensures Exit(Exorcise(k), false).Panic? <==> k.zmax == 0 || k.zmax > 16
  {
  }

  /** Yielding needs memory exactly when all live threads are runnable and the
      ring has just one slot for each. */
  lemma YieldMemory(k: Kernel)
    requires KInv(k)
    ensures Yield(k, false).Panic? <==> k.cur.Some? && k.numthreads == k.qsize && k.sleepers == []
  {
  }

  // --------------------------------------------------------------- wake one

  /** The threads that thread_wakeup_one wakes: after a sleeper on `c` it skips
      one position. */
  function SkipOn(s: seq<Tid>, chan: map<Tid, Chan>, c: Chan): seq<Tid> {
    if s == [] then []
    else if !Waits(chan, c, s[0]) then SkipOn(s[1..], chan, c)
    else if |s| == 1 then [s[0]]
    else [s[0]] + SkipOn(s[2..], chan, c)
  }

  function SkipOff(s: seq<Tid>, chan: map<Tid, Chan>, c: Chan): seq<Tid> {
    if s == [] then []
    else if !Waits(chan, c, s[0]) then [s[0]] + SkipOff(s[1..], chan, c)
    else if |s| == 1 then []
    else [s[1]] + SkipOff(s[2..], chan, c)
  }

  lemma SkipStep(s: seq<Tid>, i: nat, chan: map<Tid, Chan>, c: Chan)
    requires i < |s|
    ensures !Waits(chan, c, s[i]) ==>
      SkipOn(s[i..], chan, c) == SkipOn(s[i + 1..], chan, c) && SkipOff(s[i..], chan, c) == [s[i]] + SkipOff(s[i + 1..], chan, c)
    ensures Waits(chan, c, s[i]) && i + 1 < |s| ==>
      SkipOn(s[i..], chan, c) == [s[i]] + SkipOn(s[i + 2..], chan, c) &&
      SkipOff(s[i..], chan, c) == [s[i + 1]] + SkipOff(s[i + 2..], chan, c)
    ensures Waits(chan, c, s[i]) && i + 1 == |s| ==> SkipOn(s[i..], chan, c) == [s[i]] && SkipOff(s[i..], chan, c) == []
  {
    assert s[i..][1..] == s[i + 1..];
    if i + 1 < |s| {
      assert s[i..][2..] == s[i + 2..];
    }
  }

  lemma {:induction false} WakeOneSplits(k: Kernel, c: Chan, i: nat, memOk: bool)
    requires i <= |k.sleepers|
    ensures var r := WakeFrom(k, c, i, false, memOk);
      r.Ok? ==> r.state == k.(runq := k.runq + SkipOn(k.sleepers[i..], k.chan, c),
                              sleepers := k.sleepers[..i] + SkipOff(k.sleepers[i..], k.chan, c),
                              qsize := r.state.qsize)
    decreases |k.sleepers| - i
  {
    var s := k.sleepers;
    if i == |s| {
      assert s[..i] + SkipOff(s[i..], k.chan, c) == s;
      assert k.runq + SkipOn(s[i..], k.chan, c) == k.runq;
    } else {
      SkipStep(s, i, k.chan, c);
      hide SkipOn, SkipOff;
      if !SleepsOn(k, i, c) {
        WakeOneSplits(k, c, i + 1, memOk);
        assert s[..i + 1] == s[..i] + [s[i]];
        Reassociate(s[..i], s[i], SkipOff(s[i + 1..], k.chan, c));
      } else {
        var p := Push(k.(sleepers := Without(s, i)), s[i], memOk);
        if p.Ok? && i + 1 < |s| {
          WakeOneSplits(p.state, c, i + 1, memOk);
          SkippedPrefix(s, i);
          Reassociate(k.runq, s[i], SkipOn(s[i + 2..], k.chan, c));
          Reassociate(s[..i], s[i + 1], SkipOff(s[i + 2..], k.chan, c));
        } else if p.Ok? {
          assert Without(s, i) == s[..i] + [];
        }
      }
    }
  }

  lemma SkippedPrefix(s: seq<Tid>, i: nat)
    requires i + 1 < |s|
    ensures Without(s, i)[..i + 1] == s[..i] + [s[i + 1]] && Without(s, i)[i + 1..] == s[i + 2..]
  {
  }

  /** What thread_wakeup_one does to the lists. */
  lemma WakeupOneSplits(k: Kernel, c: Chan, memOk: bool)
    requires WakeupOne(k, c, memOk).Ok?
    ensures var k' := WakeupOne(k, c, memOk).state;
      k' == k.(runq := k.runq + SkipOn(k.sleepers, k.chan, c), sleepers := SkipOff(k.sleepers, k.chan, c), qsize := k'.qsize)
  {
    WakeOneSplits(k, c, 0, memOk);
    assert k.sleepers[0..] == k.sleepers;
    assert k.sleepers[..0] + SkipOff(k.sleepers, k.chan, c) == SkipOff(k.sleepers, k.chan, c);
  }

  lemma {:induction false} WakeOneMemory(k: Kernel, c: Chan, i: nat)
    requires i <= |k.sleepers| && |k.runq| < k.qsize
    ensures var n := |k.runq| + |SkipOn(k.sleepers[i..], k.chan, c)|; var r := WakeFrom(k, c, i, false, false);
      (r.Panic? <==> n >= k.qsize) && (r.Ok? ==> r.state.qsize == k.qsize)
    decreases |k.sleepers| - i
  {
    var s := k.sleepers;
    if i < |s| {
      SkipStep(s, i, k.chan, c);
      hide SkipOn;
      if !SleepsOn(k, i, c) {
        WakeOneMemory(k, c, i + 1);
      } else {
        var p := Push(k.(sleepers := Without(s, i)), s[i], false);
        if p.Ok? && i + 1 < |s| {
          SkippedPrefix(s, i);
          WakeOneMemory(p.state, c, i + 1);
        }
      }
    }
  }

  lemma {:induction false} SkipCount(s: seq<Tid>, chan: map<Tid, Chan>, c: Chan)
    ensures |SkipOn(s, chan, c)| + |SkipOff(s, chan, c)| == |s|
  {
    if s != [] {
      if !Waits(chan, c, s[0]) {
        SkipCount(s[1..], chan, c);
      } else if |s| > 1 {
        SkipCount(s[2..], chan, c);
      }
    }
  }

  /** thread_wakeup_one needs memory exactly when the one sleeper there is sleeps on
      `c` and all other live threads fill a ring that has one slot for each; never
      while a thread runs. */
  lemma WakeupOneMemory(k: Kernel, c: Chan)
    requires KInv(k)
    ensures WakeupOne(k, c, true).Ok?
    ensures WakeupOne(k, c, false).Panic? <==>
      k.cur.None? && k.numthreads == k.qsize && SkipOff(k.sleepers, k.chan, c) == []
    ensures SkipOff(k.sleepers, k.chan, c) == [] <==>
      k.sleepers == [] || (|k.sleepers| == 1 && Waits(k.chan, c, k.sleepers[0]))
    ensures k.cur.Some? ==> WakeupOne(k, c, false).Ok? && WakeupOne(k, c, false).state.qsize == k.qsize
  {
    hide OneEach, Census;
    MemoryIsEnough(k, c, 0, false);
    WakeOneMemory(k, c, 0);
    SkipCount(k.sleepers, k.chan, c);
    assert k.sleepers[0..] == k.sleepers;
  }

  /** Sleeper `p` is the first one on `c`. */
  predicate FirstOn(s: seq<Tid>, chan: map<Tid, Chan>, c: Chan, p: nat) {
    p < |s| && Waits(chan, c, s[p]) && forall i :: 0 <= i < p ==> !Waits(chan, c, s[i])
  }

  lemma {:induction false} SkipOnNobody(s: seq<Tid>, chan: map<Tid, Chan>, c: Chan)
    ensures SkipOn(s, chan, c) == [] <==> forall i :: 0 <= i < |s| ==> !Waits(chan, c, s[i])
  {
    if s != [] && !Waits(chan, c, s[0]) {
      SkipOnNobody(s[1..], chan, c);
      assert forall i :: 0 <= i < |s[1..]| ==> s[1..][i] == s[i + 1];
      assert forall i :: 1 <= i < |s| ==> s[i] == s[1..][i - 1];
    }
  }

  /** thread_wakeup_one wakes the first sleeper on `c`. It wakes no other exactly
      when nobody from the second position after that one on sleeps on `c`. */
  lemma {:induction false} WakesExactlyOne(s: seq<Tid>, chan: map<Tid, Chan>, c: Chan, p: nat)
    requires FirstOn(s, chan, c, p)
    ensures SkipOn(s, chan, c) != [] && SkipOn(s, chan, c)[0] == s[p]
    ensures |SkipOn(s, chan, c)| == 1 <==> forall i :: p + 2 <= i < |s| ==> !Waits(chan, c, s[i])
    decreases |s|
  {
    if p > 0 {
      assert forall i :: 0 <= i < |s[1..]| ==> s[1..][i] == s[i + 1];
      WakesExactlyOne(s[1..], chan, c, p - 1);
      assert forall i :: p + 2 <= i < |s| ==> s[i] == s[1..][i - 1];
    } else if |s| > 1 {
      SkipOnNobody(s[2..], chan, c);
      assert forall i :: 2 <= i < |s| ==> s[i] == s[2..][i - 2];
    }
  }

  /** Three threads asleep on one address: signalling one of them wakes two. */
  lemma WakeOneCanWakeTwo(k: Kernel, c: Chan, x: Tid, y: Tid, z: Tid)
    requires k.sleepers == [x, y, z]
    requires Waits(k.chan, c, x) && Waits(k.chan, c, y) && Waits(k.chan, c, z)
    ensures WakeupOne(k, c, true).Ok?
    ensures WakeupOne(k, c, true).state.runq == k.runq + [x, z]
    ensures WakeupOne(k, c, true).state.sleepers == [y]
  {
    MemoryIsEnough(k, c, 0, false);
    WakeupOneSplits(k, c, true);
    assert k.sleepers[2..] == [z];
    assert SkipOn(k.sleepers, k.chan, c) == [x] + SkipOn([z], k.chan, c);
    assert SkipOff(k.sleepers, k.chan, c) == [y] + SkipOff([z], k.chan, c);
  }
}
