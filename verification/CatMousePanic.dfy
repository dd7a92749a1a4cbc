/** With five animals or more, whatever their kinds, the cat and mouse program can
    panic: three are let in at once, and the third finds both dishes busy. The run
    is put together from pieces in which one animal moves. */
module CatMousePanic {
  import opened CatMouse
  import opened CatMouseTokens

  /** One more or one less animal of kind `k` waiting. */
  function MoreWaiting(sh: Shared, k: Kind, n: int): Shared { Do(sh, AddWait(k, n)) }

  /** One more or one less signal for kind `k`. */
  function MoreSignals(sh: Shared, k: Kind, n: int): Shared { Plus(sh, Own(k), n) }

  predicate Quiet(sh: Shared) { sh.mutex == 1 && sh.dishSem == 1 && !sh.panicked }

  lemma {:induction false} Extend(s: Kitchen, order: seq<nat>, t: Kitchen, i: nat)
    requires IsRun(s, order, t) && i < |t.animals| && Ready(t.sh, t.animals[i])
    ensures IsRun(s, order + [i], Step(t, i))
    decreases |order|
  {
    hide Do, NextLocal, Ready, ActOf;
    if order == [] {
      assert (order + [i])[1..] == [];
      assert IsRun(Step(s, i), [], Step(t, i));
    } else {
      Extend(Step(s, order[0]), order[1..], t, i);
      assert (order + [i])[1..] == order[1..] + [i];
    }
  }

  /** Animal `i` steps from `a` to `b`; the others are those of `herd`. */
  lemma Go(s: Kitchen, order: seq<nat>, herd: seq<Animal>, i: nat, sh: Shared, a: Animal, t: Shared, b: Animal) returns (o: seq<nat>)
    requires i < |herd| && IsRun(s, order, Kitchen(sh, herd[i := a])) && Ready(sh, a)
    requires Do(sh, Action(a)) == t && NextLocal(sh, a) == b
    ensures IsRun(s, o, Kitchen(t, herd[i := b]))
  {
    hide IsRun, Do, NextLocal, Ready, ActOf;
    Extend(s, order, Kitchen(sh, herd[i := a]), i);
    assert herd[i := a][i := b] == herd[i := b];
    o := order + [i];
  }

  lemma FirstArrives(s: Kitchen, order: seq<nat>, herd: seq<Animal>, i: nat, sh: Shared, k: Kind) returns (o: seq<nat>)
    requires i < |herd| && IsRun(s, order, Kitchen(sh, herd[i := Animal(k, Arrive, false, false, 0)]))
    requires Quiet(sh) && sh.available
    ensures IsRun(s, o, Kitchen(MoreWaiting(MoreSignals(sh.(available := false), k, 1), k, 1),
                                herd[i := Animal(k, Wait, true, false, 0)]))
  {
    hide IsRun;
    var h := sh.(mutex := 0);
    o := Go(s, order, herd, i, sh, Animal(k, Arrive, false, false, 0), h, Animal(k, Look, false, false, 0));
    o := Go(s, o, herd, i, h, Animal(k, Look, false, false, 0), h, Animal(k, TakeKitchen, false, false, 0));
    o := Go(s, o, herd, i, h, Animal(k, TakeKitchen, false, false, 0),
            h.(available := false), Animal(k, Open, false, false, 0));
    h := h.(available := false);
    o := LetsItselfIn(s, o, herd, i, h, k);
  }

  lemma LetsItselfIn(s: Kitchen, order: seq<nat>, herd: seq<Animal>, i: nat, sh: Shared, k: Kind) returns (o: seq<nat>)
    requires i < |herd| && IsRun(s, order, Kitchen(sh, herd[i := Animal(k, Open, false, false, 0)])) && !sh.panicked
    ensures IsRun(s, o, Kitchen(MoreWaiting(MoreSignals(sh, k, 1), k, 1).(mutex := sh.mutex + 1),
                                herd[i := Animal(k, Wait, true, false, 0)]))
  {
    hide IsRun;
    o := Go(s, order, herd, i, sh, Animal(k, Open, false, false, 0), MoreSignals(sh, k, 1), Animal(k, CountUp, true, false, 0));
    o := Go(s, o, herd, i, MoreSignals(sh, k, 1), Animal(k, CountUp, true, false, 0),
            MoreWaiting(MoreSignals(sh, k, 1), k, 1), Animal(k, Counted, true, false, 0));
    o := Go(s, o, herd, i, MoreWaiting(MoreSignals(sh, k, 1), k, 1), Animal(k, Counted, true, false, 0),
            MoreWaiting(MoreSignals(sh, k, 1), k, 1).(mutex := sh.mutex + 1), Animal(k, Wait, true, false, 0));
  }

  lemma FirstEnters(s: Kitchen, order: seq<nat>, herd: seq<Animal>, i: nat, sh: Shared, k: Kind) returns (o: seq<nat>)
    requires i < |herd| && IsRun(s, order, Kitchen(sh, herd[i := Animal(k, Wait, true, false, 0)]))
    requires Quiet(sh) && Value(sh, Own(k)) > 0
    ensures IsRun(s, o, Kitchen(MoreSignals(sh, k, -1), herd[i := Animal(k, Invite, true, false, 0)]))
  {
    hide IsRun;
    var h := MoreSignals(sh, k, -1);
    o := Go(s, order, herd, i, sh, Animal(k, Wait, true, false, 0), h, Animal(k, Enter, true, false, 0));
    o := Go(s, o, herd, i, h, Animal(k, Enter, true, false, 0), h.(mutex := 0), Animal(k, Entered, true, false, 0));
    o := Go(s, o, herd, i, h.(mutex := 0), Animal(k, Entered, true, false, 0),
            MoreSignals(sh, k, -1), Animal(k, Invite, true, false, 0));
  }

  lemma FirstInvites(s: Kitchen, order: seq<nat>, herd: seq<Animal>, i: nat, sh: Shared, k: Kind) returns (o: seq<nat>)
    requires i < |herd| && IsRun(s, order, Kitchen(sh, herd[i := Animal(k, Invite, true, false, 0)]))
    requires Quiet(sh) && Waiting(sh, k) > 0
    ensures IsRun(s, o, Kitchen(MoreSignals(sh, k, 1), herd[i := Animal(k, Approach, true, true, 0)]))
  {
    hide IsRun;
    var h := sh.(mutex := 0);
    o := Go(s, order, herd, i, sh, Animal(k, Invite, true, false, 0), h, Animal(k, Ask, true, false, 0));
    o := Go(s, o, herd, i, h, Animal(k, Ask, true, false, 0), h, Animal(k, Admit, true, true, 0));
    o := Go(s, o, herd, i, h, Animal(k, Admit, true, true, 0), MoreSignals(h, k, 1), Animal(k, Invited, true, true, 0));
    o := Go(s, o, herd, i, MoreSignals(h, k, 1), Animal(k, Invited, true, true, 0),
            MoreSignals(sh, k, 1), Animal(k, Approach, true, true, 0));
  }

  /** One that is not the first arrives and waits. */
  lemma OtherArrives(s: Kitchen, order: seq<nat>, herd: seq<Animal>, i: nat, sh: Shared, k: Kind) returns (o: seq<nat>)
    requires i < |herd| && IsRun(s, order, Kitchen(sh, herd[i := Animal(k, Arrive, false, false, 0)]))
    requires Quiet(sh) && !sh.available
    ensures IsRun(s, o, Kitchen(MoreWaiting(sh, k, 1), herd[i := Animal(k, Wait, false, false, 0)]))
  {
    hide IsRun;
    var h := sh.(mutex := 0);
    o := Go(s, order, herd, i, sh, Animal(k, Arrive, false, false, 0), h, Animal(k, Look, false, false, 0));
    o := Go(s, o, herd, i, h, Animal(k, Look, false, false, 0), h, Animal(k, CountUp, false, false, 0));
    o := Go(s, o, herd, i, h, Animal(k, CountUp, false, false, 0), MoreWaiting(h, k, 1), Animal(k, Counted, false, false, 0));
    o := Go(s, o, herd, i, MoreWaiting(h, k, 1), Animal(k, Counted, false, false, 0),
            MoreWaiting(sh, k, 1), Animal(k, Wait, false, false, 0));
  }

  lemma OtherEnters(s: Kitchen, order: seq<nat>, herd: seq<Animal>, i: nat, sh: Shared, k: Kind) returns (o: seq<nat>)
    requires i < |herd| && IsRun(s, order, Kitchen(sh, herd[i := Animal(k, Wait, false, false, 0)]))
    requires Quiet(sh) && Value(sh, Own(k)) > 0
    ensures IsRun(s, o, Kitchen(MoreSignals(sh, k, -1), herd[i := Animal(k, Approach, false, false, 0)]))
  {
    hide IsRun;
    var h := MoreSignals(sh, k, -1);
    o := Go(s, order, herd, i, sh, Animal(k, Wait, false, false, 0), h, Animal(k, Enter, false, false, 0));
    o := Go(s, o, herd, i, h, Animal(k, Enter, false, false, 0), h.(mutex := 0), Animal(k, Entered, false, false, 0));
    o := Go(s, o, herd, i, h.(mutex := 0), Animal(k, Entered, false, false, 0),
            MoreSignals(sh, k, -1), Animal(k, Approach, false, false, 0));
  }

  lemma LooksAtDish1(s: Kitchen, order: seq<nat>, herd: seq<Animal>, i: nat, sh: Shared, k: Kind, first: bool) returns (o: seq<nat>)
    requires i < |herd| && IsRun(s, order, Kitchen(sh, herd[i := Animal(k, Approach, first, first, 0)])) && Quiet(sh)
    ensures IsRun(s, o, Kitchen(sh.(dishSem := 0), herd[i := Animal(k, if sh.busy1 then See2 else Take1, first, first, 0)]))
  {
    hide IsRun;
    var h := sh.(dishSem := 0);
    o := Go(s, order, herd, i, sh, Animal(k, Approach, first, first, 0), h, Animal(k, See1, first, first, 0));
    o := Go(s, o, herd, i, h, Animal(k, See1, first, first, 0), h, Animal(k, if sh.busy1 then See2 else Take1, first, first, 0));
  }

  lemma TakesDish1(s: Kitchen, order: seq<nat>, herd: seq<Animal>, i: nat, sh: Shared, k: Kind, first: bool) returns (o: seq<nat>)
    requires i < |herd| && IsRun(s, order, Kitchen(sh, herd[i := Animal(k, Approach, first, first, 0)]))
    requires Quiet(sh) && !sh.busy1
    ensures IsRun(s, o, Kitchen(sh.(busy1 := true), herd[i := Animal(k, Eat, first, first, 1)]))
  {
    hide IsRun;
    var h := sh.(dishSem := 0);
    o := LooksAtDish1(s, order, herd, i, sh, k, first);
    o := Go(s, o, herd, i, h, Animal(k, Take1, first, first, 0), h.(busy1 := true), Animal(k, Taken, first, first, 1));
    o := Go(s, o, herd, i, h.(busy1 := true), Animal(k, Taken, first, first, 1),
            sh.(busy1 := true), Animal(k, Eat, first, first, 1));
  }

  lemma TakesDish2(s: Kitchen, order: seq<nat>, herd: seq<Animal>, i: nat, sh: Shared, k: Kind) returns (o: seq<nat>)
    requires i < |herd| && IsRun(s, order, Kitchen(sh, herd[i := Animal(k, Approach, false, false, 0)]))
    requires Quiet(sh) && sh.busy1 && !sh.busy2
    ensures IsRun(s, o, Kitchen(sh.(busy2 := true), herd[i := Animal(k, Eat, false, false, 2)]))
  {
    hide IsRun;
    var h := sh.(dishSem := 0);
    o := LooksAtDish1(s, order, herd, i, sh, k, false);
    o := Go(s, o, herd, i, h, Animal(k, See2, false, false, 0), h, Animal(k, Take2, false, false, 0));
    o := Go(s, o, herd, i, h, Animal(k, Take2, false, false, 0), h.(busy2 := true), Animal(k, Taken, false, false, 2));
    o := Go(s, o, herd, i, h.(busy2 := true), Animal(k, Taken, false, false, 2),
            sh.(busy2 := true), Animal(k, Eat, false, false, 2));
  }

  /** Dish 1 is put back. */
  lemma PutsBack(s: Kitchen, order: seq<nat>, herd: seq<Animal>, i: nat, sh: Shared, k: Kind, first: bool) returns (o: seq<nat>)
    requires i < |herd| && IsRun(s, order, Kitchen(sh, herd[i := Animal(k, Eat, first, first, 1)]))
    requires Quiet(sh)
    ensures IsRun(s, o, Kitchen(sh.(busy1 := false), herd[i := Animal(k, Leave, first, first, 1)]))
  {
    hide IsRun;
    var h := sh.(dishSem := 0);
    o := Go(s, order, herd, i, sh, Animal(k, Eat, first, first, 1), h, Animal(k, PutDown, first, first, 1));
    o := Go(s, o, herd, i, h, Animal(k, PutDown, first, first, 1), h.(busy1 := false), Animal(k, Put, first, first, 1));
    o := Go(s, o, herd, i, h.(busy1 := false), Animal(k, Put, first, first, 1),
            sh.(busy1 := false), Animal(k, Leave, first, first, 1));
  }

  lemma CountsDown(s: Kitchen, order: seq<nat>, herd: seq<Animal>, i: nat, sh: Shared, k: Kind, first: bool) returns (o: seq<nat>)
    requires i < |herd| && IsRun(s, order, Kitchen(sh, herd[i := Animal(k, Leave, first, first, 1)]))
    requires Quiet(sh)
    ensures IsRun(s, o, Kitchen(MoreWaiting(sh, k, -1), herd[i := Animal(k, if first then WaitDone else SignalDone, first, first, 1)]))
  {
    hide IsRun;
    var h := sh.(mutex := 0);
    o := Go(s, order, herd, i, sh, Animal(k, Leave, first, first, 1), h, Animal(k, CountDown, first, first, 1));
    o := Go(s, o, herd, i, h, Animal(k, CountDown, first, first, 1), MoreWaiting(h, k, -1), Animal(k, Discounted, first, first, 1));
    o := StepsBack(s, o, herd, i, MoreWaiting(h, k, -1), k, first);
  }

  lemma StepsBack(s: Kitchen, order: seq<nat>, herd: seq<Animal>, i: nat, sh: Shared, k: Kind, first: bool) returns (o: seq<nat>)
    requires i < |herd| && IsRun(s, order, Kitchen(sh, herd[i := Animal(k, Discounted, first, first, 1)])) && !sh.panicked
    ensures IsRun(s, o, Kitchen(sh.(mutex := sh.mutex + 1),
                                herd[i := Animal(k, if first then WaitDone else SignalDone, first, first, 1)]))
  {
    hide IsRun;
    o := Go(s, order, herd, i, sh, Animal(k, Discounted, first, first, 1),
            sh.(mutex := sh.mutex + 1), Animal(k, if first then WaitDone else SignalDone, first, first, 1));
  }

  /** From Tell to the choice of who comes next. */
  lemma Tells(s: Kitchen, order: seq<nat>, herd: seq<Animal>, i: nat, sh: Shared, k: Kind, first: bool) returns (o: seq<nat>)
    requires i < |herd| && IsRun(s, order, Kitchen(sh, herd[i := Animal(k, Tell, first, first, 1)]))
    requires Quiet(sh)
    ensures IsRun(s, o, Kitchen(sh.(mutex := 0), herd[i := Animal(k, AskOther, first, first, 1)]))
  {
    hide IsRun;
    o := TellsAll(s, order, herd, i, sh, k, first);
    o := Go(s, o, herd, i, sh, Animal(k, Pass, first, first, 1), sh.(mutex := 0), Animal(k, AskOther, first, first, 1));
  }

  lemma TellsAll(s: Kitchen, order: seq<nat>, herd: seq<Animal>, i: nat, sh: Shared, k: Kind, first: bool) returns (o: seq<nat>)
    requires i < |herd| && IsRun(s, order, Kitchen(sh, herd[i := Animal(k, Tell, first, first, 1)]))
    requires Quiet(sh)
    ensures IsRun(s, o, Kitchen(sh, herd[i := Animal(k, Pass, first, first, 1)]))
  {
    hide IsRun;
    var h := sh.(mutex := 0);
    o := Go(s, order, herd, i, sh, Animal(k, Tell, first, first, 1), h, Animal(k, Told, first, first, 1));
    o := Go(s, o, herd, i, h, Animal(k, Told, first, first, 1), sh, Animal(k, Pass, first, first, 1));
  }

  /** Nobody waits, and the kitchen is open again. */
  lemma Opens(s: Kitchen, order: seq<nat>, herd: seq<Animal>, i: nat, sh: Shared, k: Kind) returns (o: seq<nat>)
    requires i < |herd| && IsRun(s, order, Kitchen(sh, herd[i := Animal(k, AskOther, false, false, 1)]))
    requires sh.cats == 0 && sh.mice == 0 && !sh.panicked
    ensures IsRun(s, o, Kitchen(sh.(mutex := sh.mutex + 1, available := true), herd[i := Animal(k, Finish, false, false, 1)]))
  {
    hide IsRun;
    o := FindsNobody(s, order, herd, i, sh, k);
    o := Go(s, o, herd, i, sh, Animal(k, Reopen, false, false, 1),
            sh.(available := true), Animal(k, Passed, false, false, 1));
    o := Go(s, o, herd, i, sh.(available := true), Animal(k, Passed, false, false, 1),
            sh.(mutex := sh.mutex + 1, available := true), Animal(k, Finish, false, false, 1));
  }

  lemma FindsNobody(s: Kitchen, order: seq<nat>, herd: seq<Animal>, i: nat, sh: Shared, k: Kind) returns (o: seq<nat>)
    requires i < |herd| && IsRun(s, order, Kitchen(sh, herd[i := Animal(k, AskOther, false, false, 1)]))
    requires sh.cats == 0 && sh.mice == 0 && !sh.panicked
    ensures IsRun(s, o, Kitchen(sh, herd[i := Animal(k, Reopen, false, false, 1)]))
  {
    hide IsRun;
    o := Go(s, order, herd, i, sh, Animal(k, AskOther, false, false, 1), sh, Animal(k, AskOwn, false, false, 1));
    o := Go(s, o, herd, i, sh, Animal(k, AskOwn, false, false, 1), sh, Animal(k, Reopen, false, false, 1));
  }

  /** An animal of kind `z` waits and is called in. */
  lemma Calls(s: Kitchen, order: seq<nat>, herd: seq<Animal>, i: nat, sh: Shared, k: Kind, z: Kind) returns (o: seq<nat>)
    requires i < |herd| && IsRun(s, order, Kitchen(sh, herd[i := Animal(k, AskOther, true, true, 1)]))
    requires !sh.panicked && Waiting(sh, z) > 0 && (z == k ==> Waiting(sh, Other(k)) == 0)
    ensures IsRun(s, o, Kitchen(MoreSignals(sh, z, 1).(mutex := sh.mutex + 1), herd[i := Animal(k, Finish, true, true, 1)]))
  {
    hide IsRun;
    if z == k {
      o := FindsOwn(s, order, herd, i, sh, k);
    } else {
      o := FindsOther(s, order, herd, i, sh, k);
    }
    o := Signals(s, o, herd, i, sh, k, z);
    o := Go(s, o, herd, i, MoreSignals(sh, z, 1), Animal(k, Passed, true, true, 1),
            MoreSignals(sh, z, 1).(mutex := sh.mutex + 1), Animal(k, Finish, true, true, 1));
  }

  lemma Signals(s: Kitchen, order: seq<nat>, herd: seq<Animal>, i: nat, sh: Shared, k: Kind, z: Kind) returns (o: seq<nat>)
    requires i < |herd| && !sh.panicked
    requires IsRun(s, order, Kitchen(sh, herd[i := Animal(k, if z == k then CallOwn else CallOther, true, true, 1)]))
    ensures IsRun(s, o, Kitchen(MoreSignals(sh, z, 1), herd[i := Animal(k, Passed, true, true, 1)]))
  {
    hide IsRun;
    o := Go(s, order, herd, i, sh, Animal(k, if z == k then CallOwn else CallOther, true, true, 1),
            MoreSignals(sh, z, 1), Animal(k, Passed, true, true, 1));
  }

  lemma FindsOwn(s: Kitchen, order: seq<nat>, herd: seq<Animal>, i: nat, sh: Shared, k: Kind) returns (o: seq<nat>)
    requires i < |herd| && IsRun(s, order, Kitchen(sh, herd[i := Animal(k, AskOther, true, true, 1)]))
    requires !sh.panicked && Waiting(sh, k) > 0 && Waiting(sh, Other(k)) == 0
    ensures IsRun(s, o, Kitchen(sh, herd[i := Animal(k, CallOwn, true, true, 1)]))
  {
    hide IsRun;
    o := Go(s, order, herd, i, sh, Animal(k, AskOther, true, true, 1), sh, Animal(k, AskOwn, true, true, 1));
    o := Go(s, o, herd, i, sh, Animal(k, AskOwn, true, true, 1), sh, Animal(k, CallOwn, true, true, 1));
  }

  lemma FindsOther(s: Kitchen, order: seq<nat>, herd: seq<Animal>, i: nat, sh: Shared, k: Kind) returns (o: seq<nat>)
    requires i < |herd| && IsRun(s, order, Kitchen(sh, herd[i := Animal(k, AskOther, true, true, 1)]))
    requires !sh.panicked && Waiting(sh, Other(k)) > 0
    ensures IsRun(s, o, Kitchen(sh, herd[i := Animal(k, CallOther, true, true, 1)]))
  {
    hide IsRun;
    o := Go(s, order, herd, i, sh, Animal(k, AskOther, true, true, 1), sh, Animal(k, CallOther, true, true, 1));
  }

  lemma Panics(s: Kitchen, order: seq<nat>, herd: seq<Animal>, i: nat, sh: Shared, k: Kind) returns (o: seq<nat>)
    requires i < |herd| && IsRun(s, order, Kitchen(sh, herd[i := Animal(k, Approach, false, false, 0)]))
    requires Quiet(sh) && sh.busy1 && sh.busy2
    ensures IsRun(s, o, Kitchen(sh.(dishSem := 0, panicked := true), herd[i := Animal(k, Take2, false, false, 0)]))
  {
    hide IsRun;
    o := LooksAtDish1(s, order, herd, i, sh, k, false);
    o := Go(s, o, herd, i, sh.(dishSem := 0), Animal(k, See2, false, false, 0),
            sh.(dishSem := 0, panicked := true), Animal(k, Take2, false, false, 0));
  }

  /** It does not matter whose turn a state is written for. */
  lemma Turn(s: Kitchen, order: seq<nat>, sh: Shared, herd: seq<Animal>, i: nat)
    requires i < |herd| && IsRun(s, order, Kitchen(sh, herd))
    ensures IsRun(s, order, Kitchen(sh, herd[i := herd[i]]))
  {
    hide IsRun;
    assert herd[i := herd[i]] == herd;
  }

  function Newcomer(k: Kind): Animal { Animal(k, Arrive, false, false, 0) }

  /** Two of kind `k` come in, `i` first: one token for each. */
  lemma PairEnters(s: Kitchen, order: seq<nat>, herd: seq<Animal>, sh: Shared, i: nat, j: nat, k: Kind) returns (o: seq<nat>)
    requires i < |herd| && j < |herd| && i != j && IsRun(s, order, Kitchen(sh, herd))
    requires herd[i] == herd[j] == Newcomer(k)
    requires Quiet(sh) && sh.available && sh.catSem == 0 && sh.mouseSem == 0 && sh.cats == 0 && sh.mice == 0
    ensures IsRun(s, o, Kitchen(MoreWaiting(sh.(available := false), k, 2),
              herd[i := Animal(k, Approach, true, true, 0)][j := Animal(k, Approach, false, false, 0)]))
  {
    hide IsRun;
    var open := sh.(available := false);
    var one := MoreWaiting(open, k, 1);
    Turn(s, order, sh, herd, i);
    o := FirstArrives(s, order, herd, i, sh, k);
    o := FirstEnters(s, o, herd, i, MoreWaiting(MoreSignals(open, k, 1), k, 1), k);
    o := FirstInvites(s, o, herd, i, one, k);
    var in1 := herd[i := Animal(k, Approach, true, true, 0)];
    Turn(s, o, MoreSignals(one, k, 1), in1, j);
    o := OtherArrives(s, o, in1, j, MoreSignals(one, k, 1), k);
    o := OtherEnters(s, o, in1, j, MoreWaiting(MoreSignals(one, k, 1), k, 1), k);
  }

  /** One eats from dish 1 and counts itself out. */
  lemma Dines(s: Kitchen, order: seq<nat>, herd: seq<Animal>, i: nat, sh: Shared, k: Kind, first: bool) returns (o: seq<nat>)
    requires i < |herd| && IsRun(s, order, Kitchen(sh, herd[i := Animal(k, Approach, first, first, 0)]))
    requires Quiet(sh) && !sh.busy1
    ensures IsRun(s, o, Kitchen(MoreWaiting(sh, k, -1), herd[i := Animal(k, if first then WaitDone else SignalDone, first, first, 1)]))
  {
    hide IsRun;
    o := TakesDish1(s, order, herd, i, sh, k, first);
    o := PutsBack(s, o, herd, i, sh.(busy1 := true), k, first);
    o := CountsDown(s, o, herd, i, sh, k, first);
  }

  /** The second of a pair leaves and opens the kitchen. */
  lemma SecondLeaves(s: Kitchen, order: seq<nat>, herd: seq<Animal>, i: nat, sh: Shared, k: Kind) returns (o: seq<nat>)
    requires i < |herd| && IsRun(s, order, Kitchen(sh, herd[i := Animal(k, SignalDone, false, false, 1)]))
    requires Quiet(sh) && sh.cats == 0 && sh.mice == 0
    ensures IsRun(s, o, Kitchen(sh.(done := sh.done + 1, available := true), herd[i := Animal(k, Finish, false, false, 1)]))
  {
    hide IsRun;
    var h := sh.(done := sh.done + 1);
    o := Go(s, order, herd, i, sh, Animal(k, SignalDone, false, false, 1), h, Animal(k, Tell, false, false, 1));
    o := Tells(s, o, herd, i, h, k, false);
    o := Opens(s, o, herd, i, h.(mutex := 0), k);
  }

  /** The first of a pair leaves and calls in one of kind `z`. */
  lemma FirstLeaves(s: Kitchen, order: seq<nat>, herd: seq<Animal>, i: nat, sh: Shared, k: Kind, z: Kind) returns (o: seq<nat>)
    requires i < |herd| && IsRun(s, order, Kitchen(sh, herd[i := Animal(k, WaitDone, true, true, 1)]))
    requires Quiet(sh) && sh.done == 1 && Waiting(sh, z) > 0 && (z == k ==> Waiting(sh, Other(k)) == 0)
    ensures IsRun(s, o, Kitchen(MoreSignals(sh.(done := 0), z, 1), herd[i := Animal(k, Finish, true, true, 1)]))
  {
    hide IsRun;
    var h := sh.(done := 0);
    o := Go(s, order, herd, i, sh, Animal(k, WaitDone, true, true, 1), h, Animal(k, Tell, true, true, 1));
    o := Tells(s, o, herd, i, h, k, true);
    o := Calls(s, o, herd, i, h.(mutex := 0), k, z);
  }

  lemma MoreWaitingFacts(sh: Shared, k: Kind, n: int)
    ensures MoreWaiting(MoreWaiting(sh, k, n), k, -1) == MoreWaiting(sh, k, n - 1) && MoreWaiting(sh, k, 0) == sh
    ensures MoreWaiting(sh, k, n).busy1 == sh.busy1 && (Quiet(sh) ==> Quiet(MoreWaiting(sh, k, n)))
  {
  }

  lemma Swap(herd: seq<Animal>, i: nat, j: nat, a: Animal, b: Animal)
    requires i < |herd| && j < |herd| && i != j
    ensures herd[i := a][j := b] == herd[j := b][i := a]
  {
  }

  lemma EmptyRun(s: Kitchen)
    ensures IsRun(s, [], s)
  {
  }

  /** A pair eats and its second opens the kitchen while its first is still there. */
  lemma PairDines(kinds: seq<Kind>, p: nat, q: nat) returns (o: seq<nat>)
    requires p < |kinds| && q < |kinds| && p != q && kinds[p] == kinds[q]
    ensures var k := kinds[p];
      IsRun(Init(kinds), o, Kitchen(Init(kinds).sh.(done := 1),
        Newcomers(kinds)[p := Animal(k, WaitDone, true, true, 1)][q := Animal(k, Finish, false, false, 1)]))
  {
    hide IsRun, MoreWaiting;
    var s, k := Init(kinds), kinds[p];
    var herd := s.animals;
    var sh := s.sh.(available := false);
    EmptyRun(s);
    MoreWaitingFacts(sh, k, 2);
    MoreWaitingFacts(sh, k, 1);
    o := PairEnters(s, [], herd, s.sh, p, q, k);
    var second := Animal(k, Approach, false, false, 0);
    var byFirst := herd[q := second];
    Swap(herd, p, q, Animal(k, Approach, true, true, 0), second);
    o := Dines(s, o, byFirst, p, MoreWaiting(sh, k, 2), k, true);
    var bySecond := herd[p := Animal(k, WaitDone, true, true, 1)];
    Swap(herd, p, q, Animal(k, WaitDone, true, true, 1), second);
    o := Dines(s, o, bySecond, q, MoreWaiting(sh, k, 1), k, false);
    o := SecondLeaves(s, o, bySecond, q, sh, k);
  }

  /** Five animals in the roles of the run: a pair that has eaten, a pair that holds
      the dishes, and one more that the first pair's first calls in. */
  predicate Roles(kinds: seq<Kind>, p: nat, q: nat, r: nat, t: nat, u: nat) {
    && p < |kinds| && q < |kinds| && r < |kinds| && t < |kinds| && u < |kinds|
    && p != q && p != r && p != t && p != u && q != r && q != t && q != u && r != t && r != u && t != u
    && kinds[p] == kinds[q] && kinds[r] == kinds[t]
    && (kinds[u] == kinds[p] ==> kinds[r] == kinds[p])
  }

  /** Both dishes taken by animals like `r`, and `u` waiting. */
  function AllTaken(kinds: seq<Kind>, r: nat, u: nat): Shared
    requires r < |kinds| && u < |kinds|
  {
    var sh := Init(kinds).sh.(done := 1, available := false, busy1 := true, busy2 := true);
    MoreWaiting(MoreWaiting(sh, kinds[r], 2), kinds[u], 1)
  }

  /** The second pair takes both dishes, and `u` waits. */
  lemma BothBusy(kinds: seq<Kind>, p: nat, q: nat, r: nat, t: nat, u: nat) returns (o: seq<nat>, herd: seq<Animal>)
    requires Roles(kinds, p, q, r, t, u)
    ensures |herd| == |kinds| && herd[p] == Animal(kinds[p], WaitDone, true, true, 1)
    ensures herd[u] == Animal(kinds[u], Wait, false, false, 0)
    ensures IsRun(Init(kinds), o, Kitchen(AllTaken(kinds, r, u), herd))
  {
    hide IsRun;
    var s, k := Init(kinds), kinds[r];
    var sh := s.sh.(done := 1);
    o := PairDines(kinds, p, q);
    herd := Newcomers(kinds)[p := Animal(kinds[p], WaitDone, true, true, 1)][q := Animal(kinds[p], Finish, false, false, 1)];
    o := PairEnters(s, o, herd, sh, r, t, k);
    sh := MoreWaiting(sh.(available := false), k, 2);
    var second := Animal(k, Approach, false, false, 0);
    var byFirst := herd[t := second];
    Swap(herd, r, t, Animal(k, Approach, true, true, 0), second);
    o := TakesDish1(s, o, byFirst, r, sh, k, true);
    var bySecond := herd[r := Animal(k, Eat, true, true, 1)];
    Swap(herd, r, t, Animal(k, Eat, true, true, 1), second);
    o := TakesDish2(s, o, bySecond, t, sh.(busy1 := true), k);
    herd := bySecond[t := Animal(k, Eat, false, false, 2)];
    sh := sh.(busy1 := true, busy2 := true);
    Turn(s, o, sh, herd, u);
    o := OtherArrives(s, o, herd, u, sh, kinds[u]);
    herd := herd[u := Animal(kinds[u], Wait, false, false, 0)];
  }

  lemma RolesPanic(kinds: seq<Kind>, p: nat, q: nat, r: nat, t: nat, u: nat) returns (o: seq<nat>, s: Kitchen)
    requires Roles(kinds, p, q, r, t, u)
    ensures IsRun(Init(kinds), o, s) && s.sh.panicked
  {
    hide IsRun;
    var herd;
    o, herd := BothBusy(kinds, p, q, r, t, u);
    var start := Init(kinds);
    var sh := AllTaken(kinds, r, u);
    Turn(start, o, sh, herd, p);
    o := FirstLeaves(start, o, herd, p, sh, kinds[p], kinds[u]);
    herd := herd[p := Animal(kinds[p], Finish, true, true, 1)];
    sh := MoreSignals(sh.(done := 0), kinds[u], 1);
    Turn(start, o, sh, herd, u);
    o := OtherEnters(start, o, herd, u, sh, kinds[u]);
    o := Panics(start, o, herd, u, MoreSignals(sh, kinds[u], -1), kinds[u]);
    s := Kitchen(MoreSignals(sh, kinds[u], -1).(dishSem := 0, panicked := true), herd[u := Animal(kinds[u], Take2, false, false, 0)]);
  }

  // -------------------------------------------------------------- who plays whom

  /** The animals of kind `k` among the first `n`. */
  function Which(kinds: seq<Kind>, k: Kind, n: nat): seq<nat>
    requires n <= |kinds|
  {
    if n == 0 then [] else if kinds[n - 1] == k then Which(kinds, k, n - 1) + [n - 1] else Which(kinds, k, n - 1)
  }

  predicate Ascending(kinds: seq<Kind>, k: Kind, n: nat, r: seq<nat>)
    requires n <= |kinds|
  {
    (forall i :: 0 <= i < |r| ==> r[i] < n && kinds[r[i]] == k) && (forall i, j :: 0 <= i < j < |r| ==> r[i] < r[j])
  }

  lemma {:induction false} WhichAre(kinds: seq<Kind>, k: Kind, n: nat)
    requires n <= |kinds|
    ensures Ascending(kinds, k, n, Which(kinds, k, n))
  {
    if n > 0 {
      WhichAre(kinds, k, n - 1);
      assert Ascending(kinds, k, n, Which(kinds, k, n - 1));
    }
  }

  lemma UpTo(kinds: seq<Kind>, k: Kind, i: nat)
    requires |kinds| >= 5 && i < |Which(kinds, k, 5)|
    ensures var r := Which(kinds, k, 5); r[i] < |kinds| && kinds[r[i]] == k && (i > 0 ==> r[i - 1] < r[i])
  {
    WhichAre(kinds, k, 5);
  }

  lemma {:induction false} WhichAll(kinds: seq<Kind>, n: nat)
    requires n <= |kinds|
    ensures |Which(kinds, Cat, n)| + |Which(kinds, Mouse, n)| == n
  {
    if n > 0 {
      WhichAll(kinds, n - 1);
    }
  }

  /** Any five animals can play the roles. */
  lemma Cast(kinds: seq<Kind>) returns (p: nat, q: nat, r: nat, t: nat, u: nat)
    requires |kinds| >= 5
    ensures Roles(kinds, p, q, r, t, u)
  {
    WhichAll(kinds, 5);
    if |Which(kinds, Cat, 5)| >= 3 {
      p, q, r, t, u := CastFrom(kinds, Cat);
    } else {
      p, q, r, t, u := CastFrom(kinds, Mouse);
    }
  }

  lemma CastFrom(kinds: seq<Kind>, k: Kind) returns (p: nat, q: nat, r: nat, t: nat, u: nat)
    requires |kinds| >= 5 && |Which(kinds, k, 5)| >= 3
    ensures Roles(kinds, p, q, r, t, u)
  {
    WhichAll(kinds, 5);
    var most, rest := Which(kinds, k, 5), Which(kinds, Other(k), 5);
    hide Which;
    UpTo(kinds, k, 0);
    UpTo(kinds, k, 1);
    UpTo(kinds, k, 2);
    if |most| == 3 {
      UpTo(kinds, Other(k), 0);
      UpTo(kinds, Other(k), 1);
      p, q, r, t, u := rest[0], rest[1], most[0], most[1], most[2];
    } else if |most| == 4 {
      UpTo(kinds, k, 3);
      UpTo(kinds, Other(k), 0);
      p, q, r, t, u := most[0], most[1], most[2], most[3], rest[0];
    } else {
      UpTo(kinds, k, 3);
      UpTo(kinds, k, 4);
      p, q, r, t, u := most[0], most[1], most[2], most[3], most[4];
    }
  }

  /** Both dishes can be found busy exactly when there are five animals or more. */
  lemma PanicIffFive(kinds: seq<Kind>)
    ensures (exists order, s :: IsRun(Init(kinds), order, s) && s.sh.panicked) <==> |kinds| >= 5
  {
    hide IsRun, TInv;
    if |kinds| >= 5 {
      var p, q, r, t, u := Cast(kinds);
      var o, s := RolesPanic(kinds, p, q, r, t, u);
    } else {
      StartTokens(kinds);
      forall order, s | IsRun(Init(kinds), order, s) ensures !s.sh.panicked {
        FewNeverPanic(Init(kinds), order, s);
      }
    }
  }
}
