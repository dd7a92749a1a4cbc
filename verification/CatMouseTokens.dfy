/** With at most four animals the cat and mouse program never finds both dishes
    busy. Until the kitchen is opened a second time, at most two animals have been
    let in; and when that happens, two animals have eaten already. */
module CatMouseTokens {
  import opened CatMouse

  /** The animal has been let in and has not called the next one yet, or has the
      kitchen and has not let itself in yet. */
  predicate HasTokenAt(pc: Pc) {
    !(pc.Arrive? || pc.Look? || pc.TakeKitchen? || pc.CountUp? || pc.Counted? || pc.Wait?
      || pc.Passed? || pc.Finish? || pc.Tally? || pc.SignalAll? || pc.Close? || pc.Gone?)
  }

  predicate HasToken(a: Animal) { HasTokenAt(a.pc) }

  predicate IsFirst(a: Animal) { a.first || a.pc.Open? }

  /** A first that has let in another. */
  predicate HasAdmitted(a: Animal) { a.first && !Early(a) && !a.pc.Admit? }

  predicate EatenAt(pc: Pc) {
    pc.Discounted? || pc.WaitDone? || pc.SignalDone? || DepartedAt(pc)
  }

  predicate Eaten(a: Animal) { EatenAt(a.pc) }

  predicate Hungry(a: Animal) { !EatenAt(a.pc) }

  /** What is known inside a mutex section. */
  predicate Sees(sh: Shared, a: Animal) {
    && (a.pc.TakeKitchen? ==> sh.available)
    && (a.pc.AskOwn? ==> Waiting(sh, Other(a.kind)) == 0)
    && (a.pc.Reopen? ==> sh.cats == 0 && sh.mice == 0)
  }

  ghost predicate AllSee(s: Kitchen) {
    forall i :: 0 <= i < |s.animals| ==> Sees(s.sh, s.animals[i])
  }

  /** The kitchen was opened once only: one token, and one more from the first. */
  ghost predicate OpenedOnce(s: Kitchen) {
    && s.sh.catSem >= 0 && s.sh.mouseSem >= 0
    && Tokens(s) == 1 + Count(s.animals, HasAdmitted)
    && One(s.sh.available) + Count(s.animals, IsFirst) == 1
  }

  ghost predicate TwoEaten(s: Kitchen) {
    Count(s.animals, Eaten) >= 2
  }

  ghost predicate TInv(s: Kitchen) {
    Inv(s) && AllSee(s) && (OpenedOnce(s) || TwoEaten(s))
  }

  // -------------------------------------------------------------- single steps

  lemma TokenStep(pc: Pc, t: bool, f: bool, n: bool)
    ensures Switches(HasTokenAt(pc), HasTokenAt(Goes(pc, t, f, n)), pc.TakeKitchen? || pc.Wait?,
                     pc.Open? || pc.CallOther? || pc.CallOwn? || pc.Reopen?)
  {
  }

  lemma EatenStep(pc: Pc, t: bool, f: bool, n: bool)
    ensures Switches(EatenAt(pc), EatenAt(Goes(pc, t, f, n)), pc.CountDown?, false)
  {
  }

  lemma FirstStep(sh: Shared, a: Animal)
    requires a.pc.TakeKitchen? ==> !a.first
    ensures Switches(IsFirst(a), IsFirst(NextLocal(sh, a)), a.pc.TakeKitchen?, false)
  {
  }

  lemma AdmitStep(sh: Shared, a: Animal)
    requires KnowsRole(a) && (a.pc.Ask? ==> Waiting(sh, a.kind) > 0)
    ensures Switches(HasAdmitted(a), HasAdmitted(NextLocal(sh, a)), a.pc.Admit?, false)
  {
  }

  predicate Entry(s: Sem) { s == CatSem || s == MouseSem }

  lemma EntryActions(pc: Pc, k: Kind, d: int)
    ensures ActOf(pc, k, d).V? && Entry(ActOf(pc, k, d).s) <==> pc.Open? || pc.Admit? || pc.CallOther? || pc.CallOwn?
    ensures ActOf(pc, k, d).P? && Entry(ActOf(pc, k, d).s) <==> pc.Wait?
  {
  }

  lemma FlagActions(pc: Pc, k: Kind, d: int)
    ensures ActOf(pc, k, d).SetAvailable? <==> pc.TakeKitchen? || pc.Reopen?
    ensures pc.TakeKitchen? ==> ActOf(pc, k, d) == SetAvailable(false)
  {
  }

  lemma SemSum(sh: Shared, act: Act)
    ensures var t := Do(sh, act);
      t.catSem + t.mouseSem == sh.catSem + sh.mouseSem + One(act.V? && Entry(act.s)) - One(act.P? && Entry(act.s))
    ensures !act.SetAvailable? ==> Do(sh, act).available == sh.available
  {
  }

  lemma SemsStay(sh: Shared, a: Animal)
    requires Ready(sh, a) && sh.catSem >= 0 && sh.mouseSem >= 0
    ensures Do(sh, Action(a)).catSem >= 0 && Do(sh, Action(a)).mouseSem >= 0
  {
    hide ActOf;
  }

  /** Counted animals: at Ask the animal counts itself. */
  lemma AskFindsOne(s: Kitchen, i: nat)
    requires Waits(s) && i < |s.animals| && s.animals[i].pc.Ask?
    ensures Waiting(s.sh, s.animals[i].kind) > 0
  {
    hide Count;
    if s.animals[i].kind == Cat {
      CountMember(s.animals, i, WaitingCat);
    } else {
      CountMember(s.animals, i, WaitingMouse);
    }
  }

  /** Tokens, counted wherever they are. */
  ghost function Tokens(s: Kitchen): int {
    One(s.sh.available) + (s.sh.catSem + s.sh.mouseSem) + Count(s.animals, HasToken)
  }

  /** Only letting in another makes a token; only opening an open kitchen loses one. */
  lemma TokensKept(s: Kitchen, i: nat)
    requires i < |s.animals| && Ready(s.sh, s.animals[i]) && Sees(s.sh, s.animals[i]) && !s.animals[i].pc.Reopen?
    ensures Tokens(Step(s, i)) == Tokens(s) + One(s.animals[i].pc.Admit?)
  {
    var a, b := s.animals[i], NextLocal(s.sh, s.animals[i]);
    assert a.pc.TakeKitchen? ==> s.sh.available;
    hide Count, ActOf, NextLocal, Goes, Sees, HasTokenAt, Test, Ready;
    EntryActions(a.pc, a.kind, a.dish);
    FlagActions(a.pc, a.kind, a.dish);
    SemSum(s.sh, Action(a));
    hide Entry;
    LocalFacts(s.sh, a);
    TokenStep(a.pc, Test(s.sh, a), a.first, a.another);
    CountUpdate(s.animals, i, b, HasToken);
  }

  lemma FirstsKept(s: Kitchen, i: nat)
    requires i < |s.animals| && Ready(s.sh, s.animals[i]) && Sees(s.sh, s.animals[i]) && KnowsRole(s.animals[i])
    requires !s.animals[i].pc.Reopen?
    ensures var t := Step(s, i);
      One(t.sh.available) + Count(t.animals, IsFirst) == One(s.sh.available) + Count(s.animals, IsFirst)
  {
    var a, b := s.animals[i], NextLocal(s.sh, s.animals[i]);
    assert a.pc.TakeKitchen? ==> s.sh.available && !a.first;
    hide Count, ActOf, NextLocal, Sees, KnowsRole, IsFirst, Ready;
    FlagActions(a.pc, a.kind, a.dish);
    SemSum(s.sh, Action(a));
    FirstStep(s.sh, a);
    CountUpdate(s.animals, i, b, IsFirst);
  }

  lemma AdmittedKept(s: Kitchen, i: nat)
    requires Inv(s) && i < |s.animals| && Ready(s.sh, s.animals[i])
    ensures Count(Step(s, i).animals, HasAdmitted) == Count(s.animals, HasAdmitted) + One(s.animals[i].pc.Admit?)
  {
    var a, b := s.animals[i], NextLocal(s.sh, s.animals[i]);
    assert KnowsRole(a);
    if a.pc.Ask? {
      AskFindsOne(s, i);
    }
    hide Inv, Count, ActOf, NextLocal, KnowsRole, HasAdmitted, Ready, Do, Waiting;
    AdmitStep(s.sh, a);
    CountUpdate(s.animals, i, b, HasAdmitted);
  }

  lemma OpenedOnceKept(s: Kitchen, i: nat)
    requires Inv(s) && AllSee(s) && OpenedOnce(s)
    requires i < |s.animals| && Ready(s.sh, s.animals[i]) && !s.animals[i].pc.Reopen?
    ensures OpenedOnce(Step(s, i))
  {
    assert KnowsRole(s.animals[i]);
    AdmittedKept(s, i);
    hide Inv, Count, Do, ActOf, NextLocal, KnowsRole, Sees, Ready;
    SemsStay(s.sh, s.animals[i]);
    TokensKept(s, i);
    FirstsKept(s, i);
  }

  lemma TwoEatenKept(s: Kitchen, i: nat)
    requires TwoEaten(s) && i < |s.animals| && Ready(s.sh, s.animals[i])
    ensures TwoEaten(Step(s, i))
  {
    hide Count, Do, ActOf, NextLocal, Goes, EatenAt, Test, Ready;
    var a, b := s.animals[i], NextLocal(s.sh, s.animals[i]);
    LocalFacts(s.sh, a);
    EatenStep(a.pc, Test(s.sh, a), a.first, a.another);
    CountUpdate(s.animals, i, b, Eaten);
  }

  // ------------------------------------------------------ inside the mutex

  lemma MoverSees(sh: Shared, a: Animal)
    requires Sees(sh, a) && sh.cats >= 0 && sh.mice >= 0
    ensures Sees(Do(sh, Action(a)), NextLocal(sh, a))
  {
    CameFrom(a.pc, Test(sh, a), a.first, a.another);
    LocalFacts(sh, a);
    if a.pc.Look? || a.pc.AskOther? || a.pc.AskOwn? {
      assert Action(a) == Nothing;
      hide NextLocal, Goes, ActOf;
    } else {
      hide NextLocal, Goes, ActOf, Do;
    }
  }

  /** The three places inside the mutex section are reached by looking. */
  lemma CameFrom(pc: Pc, t: bool, f: bool, n: bool)
    ensures Goes(pc, t, f, n).TakeKitchen? ==> pc.Look? && t
    ensures Goes(pc, t, f, n).AskOwn? ==> pc.AskOther? && !t
    ensures Goes(pc, t, f, n).Reopen? ==> pc.AskOwn? && !t
  {
  }

  /** Outside the mutex section nothing that is seen there changes. */
  lemma QuietOutside(pc: Pc, k: Kind, d: int)
    requires !InMutexAt(pc)
    ensures !ActOf(pc, k, d).SetAvailable? && !ActOf(pc, k, d).AddWait?
  {
  }

  lemma QuietActs(sh: Shared, act: Act)
    requires !act.SetAvailable? && !act.AddWait?
    ensures Do(sh, act).available == sh.available && Do(sh, act).cats == sh.cats && Do(sh, act).mice == sh.mice
  {
  }

  lemma OtherSees(s: Kitchen, i: nat, j: nat)
    requires Guarded(s) && i < |s.animals| && Ready(s.sh, s.animals[i]) && j < |s.animals| && j != i
    requires Sees(s.sh, s.animals[j])
    ensures Sees(Step(s, i).sh, s.animals[j])
  {
    var a, c := s.animals[i], s.animals[j];
    assert c.pc.TakeKitchen? || c.pc.AskOwn? || c.pc.Reopen? ==> InMutex(c);
    hide Count, ActOf, NextLocal, Do, InMutexAt;
    if InMutex(a) && InMutex(c) {
      if i < j {
        CountPair(s.animals, i, j, InMutex);
      } else {
        CountPair(s.animals, j, i, InMutex);
      }
    }
    if !InMutex(a) {
      QuietOutside(a.pc, a.kind, a.dish);
      QuietActs(s.sh, Action(a));
    }
  }

  lemma AllSeeKept(s: Kitchen, i: nat)
    requires Inv(s) && AllSee(s) && i < |s.animals| && Ready(s.sh, s.animals[i])
    ensures AllSee(Step(s, i))
  {
    hide Count, Guarded, Dishes, Tallies, Pairs, Known, Sees, Do, NextLocal, ActOf, Ready;
    MoverSees(s.sh, s.animals[i]);
    var t := Step(s, i);
    forall j | 0 <= j < |t.animals| ensures Sees(t.sh, t.animals[j]) {
      if j != i {
        OtherSees(s, i, j);
      }
    }
  }

  // ------------------------------------------- opening the kitchen a second time

  lemma {:induction false} SomeOne(herd: seq<Animal>, p: Animal -> bool) returns (i: nat)
    requires Count(herd, p) > 0
    ensures i < |herd| && p(herd[i])
  {
    if p(herd[|herd| - 1]) {
      i := |herd| - 1;
    } else {
      i := SomeOne(herd[..|herd| - 1], p);
    }
  }

  lemma PairCounts(herd: seq<Animal>, i: nat, j: nat, p: Animal -> bool)
    requires i < |herd| && j < |herd| && i != j && p(herd[i]) && p(herd[j])
    ensures Count(herd, p) >= 2
  {
    if i < j {
      CountPair(herd, i, j, p);
    } else {
      CountPair(herd, j, i, p);
    }
  }

  /** When an animal opens the kitchen, nobody waits. */
  lemma NobodyWaits(s: Kitchen, j: nat)
    requires Waits(s) && s.sh.cats == 0 && s.sh.mice == 0 && j < |s.animals|
    ensures !IsWaiting(s.animals[j])
  {
    hide Count;
    if IsWaiting(s.animals[j]) {
      if s.animals[j].kind == Cat {
        CountMember(s.animals, j, WaitingCat);
      } else {
        CountMember(s.animals, j, WaitingMouse);
      }
    }
  }

  /** So a first that is not in the mutex section has eaten. */
  lemma FirstHasEaten(a: Animal)
    requires IsFirst(a) && KnowsRole(a) && !IsWaiting(a) && !InMutex(a)
    ensures Eaten(a)
  {
  }

  lemma ReopenMeansTwo(s: Kitchen, i: nat)
    requires Inv(s) && AllSee(s) && OpenedOnce(s) && i < |s.animals| && s.animals[i].pc.Reopen?
    ensures TwoEaten(s)
  {
    var a := s.animals[i];
    assert Sees(s.sh, a) && Departed(a) && Eaten(a) && HasToken(a) && InMutex(a);
    hide Count;
    if a.first {
      CountMember(s.animals, i, FirstDeparted);
      var j := SomeOne(s.animals, OtherDeparted);
      assert j != i && Eaten(s.animals[j]);
      PairCounts(s.animals, i, j, Eaten);
    } else {
      FirstIsElsewhere(s, i);
    }
  }

  lemma FirstIsElsewhere(s: Kitchen, i: nat)
    requires Inv(s) && OpenedOnce(s) && s.sh.cats == 0 && s.sh.mice == 0
    requires i < |s.animals| && s.animals[i].pc.Reopen? && !s.animals[i].first
    ensures TwoEaten(s)
  {
    hide Count, Dishes, Tallies, Pairs;
    CountMember(s.animals, i, HasToken);
    AdmittedAreFirst(s.animals);
    assert Count(s.animals, IsFirst) > 0;
    var j := SomeOne(s.animals, IsFirst);
    assert j != i;
    NobodyWaits(s, j);
    if InMutex(s.animals[j]) {
      PairCounts(s.animals, i, j, InMutex);
    }
    assert KnowsRole(s.animals[j]);
    FirstHasEaten(s.animals[j]);
    PairCounts(s.animals, i, j, Eaten);
  }

  lemma {:induction false} AdmittedAreFirst(herd: seq<Animal>)
    ensures Count(herd, HasAdmitted) <= Count(herd, IsFirst)
  {
    if herd != [] {
      AdmittedAreFirst(herd[..|herd| - 1]);
    }
  }

  lemma StepKeepsTokens(s: Kitchen, i: nat)
    requires TInv(s) && i < |s.animals| && Ready(s.sh, s.animals[i])
    ensures TInv(Step(s, i))
  {
    hide Inv, AllSee, OpenedOnce, TwoEaten, Do, NextLocal, ActOf, Ready;
    StepKeeps(s, i);
    AllSeeKept(s, i);
    if TwoEaten(s) {
      TwoEatenKept(s, i);
    } else if s.animals[i].pc.Reopen? {
      ReopenMeansTwo(s, i);
      TwoEatenKept(s, i);
    } else {
      OpenedOnceKept(s, i);
    }
  }

  lemma StartTokens(kinds: seq<Kind>)
    ensures TInv(Init(kinds))
  {
    InitInv(kinds);
    hide Inv, Count;
    NewcomersCount(kinds, HasToken);
    NewcomersCount(kinds, HasAdmitted);
    NewcomersCount(kinds, IsFirst);
  }

  // ------------------------------------------------------------------ no panic

  lemma {:induction false} HungryOrNot(herd: seq<Animal>)
    ensures Count(herd, Eaten) + Count(herd, Hungry) == |herd|
  {
    if herd != [] {
      HungryOrNot(herd[..|herd| - 1]);
    }
  }

  lemma {:induction false} TripleCounts(herd: seq<Animal>, i: nat, j: nat, k: nat, p: Animal -> bool)
    requires i < |herd| && j < |herd| && k < |herd| && i != j && j != k && i != k && p(herd[i]) && p(herd[j]) && p(herd[k])
    ensures Count(herd, p) >= 3
  {
    var n := |herd| - 1;
    if k == n {
      PairCounts(herd[..n], i, j, p);
    } else if j == n {
      PairCounts(herd[..n], i, k, p);
    } else if i == n {
      PairCounts(herd[..n], j, k, p);
    } else {
      TripleCounts(herd[..n], i, j, k, p);
    }
  }

  /** Two holders and a third animal at the dishes: three were let in, none has eaten. */
  lemma ThreeAtDishes(s: Kitchen, i: nat)
    requires Inv(s) && i < |s.animals| && s.animals[i].pc.See2? && !s.sh.panicked && s.sh.busy2
    ensures Count(s.animals, HasToken) >= 3 && Count(s.animals, Hungry) >= 3
  {
    hide Count, Guarded, Waits, Tallies, Pairs;
    assert Knows(s.sh, s.animals[i]);
    var j := SomeOne(s.animals, Holds1);
    var k := SomeOne(s.animals, Holds2);
    TripleCounts(s.animals, i, j, k, HasToken);
    TripleCounts(s.animals, i, j, k, Hungry);
  }

  lemma NoPanicStep(s: Kitchen, i: nat)
    requires TInv(s) && |s.animals| <= 4 && i < |s.animals| && Ready(s.sh, s.animals[i])
    ensures !Step(s, i).sh.panicked
  {
    var a := s.animals[i];
    if a.pc.See2? && s.sh.busy2 {
      ThreeAtDishes(s, i);
      hide Count;
      HungryOrNot(s.animals);
      AdmittedAreFirst(s.animals);
    } else {
      PanicOnly(s.sh, a);
    }
  }

  lemma PanicOnly(sh: Shared, a: Animal)
    requires !sh.panicked && !(a.pc.See2? && sh.busy2)
    ensures !Do(sh, Action(a)).panicked
  {
  }

  /** Four animals or fewer never panic, in any run. */
  lemma {:induction false} FewNeverPanic(s: Kitchen, order: seq<nat>, t: Kitchen)
    requires TInv(s) && |s.animals| <= 4 && !s.sh.panicked && IsRun(s, order, t)
    ensures !t.sh.panicked
    decreases |order|
  {
    hide TInv, Do, NextLocal, ActOf;
    if order != [] {
      StepKeepsTokens(s, order[0]);
      NoPanicStep(s, order[0]);
      FewNeverPanic(Step(s, order[0]), order[1..], t);
    }
  }
}
