/** The cat and mouse program on semaphores (kern/asst1/catsem.c): any number of
    animals, interleaved at every shared access. Cats and mice run the same code
    with their roles exchanged. */
module CatMouse {

  datatype Kind = Cat | Mouse

  /** The next action of an animal; the comment names it. */
  datatype Pc =
    | Arrive      // P(mutex)
    | Look        // all dishes available?
    | TakeKitchen // all dishes available = false
    | Open        // V(own sem)
    | CountUp     // own wait count + 1
    | Counted     // V(mutex)
    | Wait        // P(own sem)
    | Enter       // P(mutex)
    | Entered     // V(mutex)
    | Invite      // P(mutex)
    | Ask         // own wait count > 0?
    | Admit       // V(own sem)
    | Invited     // V(mutex)
    | Approach    // P(dish sem)
    | See1        // dish 1 busy?
    | Take1       // dish 1 busy = true
    | See2        // dish 2 busy?
    | Take2       // dish 2 busy = true
    | Taken       // V(dish sem)
    | Eat         // P(dish sem), after eating
    | PutDown     // own dish busy = false
    | Put         // V(dish sem)
    | Leave       // P(mutex)
    | CountDown   // own wait count - 1
    | Discounted  // V(mutex)
    | WaitDone    // P(done)
    | SignalDone  // V(done)
    | Tell        // P(mutex)
    | Told        // V(mutex)
    | Pass        // P(mutex)
    | AskOther    // other wait count > 0?
    | AskOwn      // own wait count > 0?
    | CallOther   // V(other sem)
    | CallOwn     // V(own sem)
    | Reopen      // all dishes available = true
    | Passed      // V(mutex)
    | Finish      // P(mutex)
    | Tally       // own done eating + 1
    | SignalAll   // V(all done)
    | Close       // V(mutex)
    | Gone

  datatype Animal = Animal(kind: Kind, pc: Pc, first: bool, another: bool, dish: int)

  datatype Sem = MutexSem | DishSem | CatSem | MouseSem | DoneSem | AllDoneSem

  /** What an action does to the shared variables. */
  datatype Act = P(s: Sem) | V(s: Sem) | SetAvailable(b: bool) | SetBusy(d: int, b: bool)
               | AddWait(k: Kind, n: int) | AddDone(k: Kind) | CheckDish2 | Nothing

  datatype Shared = Shared(
    mutex: int, dishSem: int, catSem: int, mouseSem: int, done: int, allDone: int,
    available: bool, busy1: bool, busy2: bool,
    cats: int, mice: int, catsDone: int, miceDone: int, panicked: bool)

  datatype Kitchen = Kitchen(sh: Shared, animals: seq<Animal>)

  function Own(k: Kind): Sem { if k == Cat then CatSem else MouseSem }

  function Other(k: Kind): Kind { if k == Cat then Mouse else Cat }

  function Waiting(sh: Shared, k: Kind): int { if k == Cat then sh.cats else sh.mice }

  function Value(sh: Shared, s: Sem): int {
    match s
    case MutexSem => sh.mutex
    case DishSem => sh.dishSem
    case CatSem => sh.catSem
    case MouseSem => sh.mouseSem
    case DoneSem => sh.done
    case AllDoneSem => sh.allDone
  }

  function Plus(sh: Shared, s: Sem, n: int): Shared {
    match s
    case MutexSem => sh.(mutex := sh.mutex + n)
    case DishSem => sh.(dishSem := sh.dishSem + n)
    case CatSem => sh.(catSem := sh.catSem + n)
    case MouseSem => sh.(mouseSem := sh.mouseSem + n)
    case DoneSem => sh.(done := sh.done + n)
    case AllDoneSem => sh.(allDone := sh.allDone + n)
  }

  function ActOf(pc: Pc, k: Kind, dish: int): Act {
    match pc
    case Arrive | Enter | Invite | Leave | Tell | Pass | Finish => P(MutexSem)
    case Counted | Entered | Invited | Discounted | Told | Passed | Close => V(MutexSem)
    case TakeKitchen => SetAvailable(false)
    case Reopen => SetAvailable(true)
    case Wait => P(Own(k))
    case Open | Admit | CallOwn => V(Own(k))
    case CallOther => V(Own(Other(k)))
    case CountUp => AddWait(k, 1)
    case CountDown => AddWait(k, -1)
    case Approach | Eat => P(DishSem)
    case Taken | Put => V(DishSem)
    case Take1 => SetBusy(1, true)
    case See2 => CheckDish2
    case Take2 => SetBusy(2, true)
    case PutDown => SetBusy(if dish == 1 then 1 else 2, false)
    case WaitDone => P(DoneSem)
    case SignalDone => V(DoneSem)
    case Tally => AddDone(k)
    case SignalAll => V(AllDoneSem)
    case Look | Ask | See1 | AskOther | AskOwn | Gone => Nothing
  }

  function Do(sh: Shared, act: Act): Shared {
    match act
    case P(s) => Plus(sh, s, -1)
    case V(s) => Plus(sh, s, 1)
    case SetAvailable(b) => sh.(available := b)
    case SetBusy(d, b) => if d == 1 then sh.(busy1 := b) else sh.(busy2 := b)
    case AddWait(k, n) => if k == Cat then sh.(cats := sh.cats + n) else sh.(mice := sh.mice + n)
    case AddDone(k) => if k == Cat then sh.(catsDone := sh.catsDone + 1) else sh.(miceDone := sh.miceDone + 1)
    case CheckDish2 => if sh.busy2 then sh.(panicked := true) else sh
    case Nothing => sh
  }

  /** The animal's next action. */
  function Action(a: Animal): Act { ActOf(a.pc, a.kind, a.dish) }

  /** It can take that action: no panic so far, and no P on a count of zero. */
  predicate Ready(sh: Shared, a: Animal) {
    !sh.panicked && !a.pc.Gone? && (Action(a).P? ==> Value(sh, Action(a).s) > 0)
  }

  /** The condition the animal looks at. */
  predicate Test(sh: Shared, a: Animal) {
    if a.pc.Look? then sh.available
    else if a.pc.See1? then sh.busy1
    else if a.pc.AskOther? then Waiting(sh, Other(a.kind)) > 0
    else Waiting(sh, a.kind) > 0
  }

  /** Where it goes from there. */
  function Goes(pc: Pc, test: bool, first: bool, another: bool): Pc {
    match pc
    case Arrive => Look
    case Look => if test then TakeKitchen else CountUp
    case TakeKitchen => Open
    case Open => CountUp
    case CountUp => Counted
    case Counted => Wait
    case Wait => Enter
    case Enter => Entered
    case Entered => if first then Invite else Approach
    case Invite => Ask
    case Ask => if test then Admit else Invited
    case Admit => Invited
    case Invited => Approach
    case Approach => See1
    case See1 => if test then See2 else Take1
    case Take1 => Taken
    case See2 => Take2
    case Take2 => Taken
    case Taken => Eat
    case Eat => PutDown
    case PutDown => Put
    case Put => Leave
    case Leave => CountDown
    case CountDown => Discounted
    case Discounted => if !first then SignalDone else if another then WaitDone else Tell
    case WaitDone => Tell
    case SignalDone => Tell
    case Tell => Told
    case Told => Pass
    case Pass => AskOther
    case AskOther => if test then CallOther else AskOwn
    case AskOwn => if test then CallOwn else Reopen
    case CallOther => Passed
    case CallOwn => Passed
    case Reopen => Passed
    case Passed => Finish
    case Finish => Tally
    case Tally => SignalAll
    case SignalAll => Close
    case Close => Gone
    case Gone => Gone
  }

  function NextLocal(sh: Shared, a: Animal): Animal {
    var b := a.(pc := Goes(a.pc, Test(sh, a), a.first, a.another));
    match a.pc
    case Open => b.(first := true)
    case Ask => b.(another := Waiting(sh, a.kind) > 0)
    case Take1 => b.(dish := 1)
    case Take2 => b.(dish := 2)
    case _ => b
  }

  function Step(s: Kitchen, i: nat): Kitchen
    requires i < |s.animals| && Ready(s.sh, s.animals[i])
  {
    Kitchen(Do(s.sh, Action(s.animals[i])), s.animals[i := NextLocal(s.sh, s.animals[i])])
  }

  function Newcomers(kinds: seq<Kind>): (r: seq<Animal>)
    ensures |r| == |kinds| && forall i :: 0 <= i < |r| ==> r[i] == Animal(kinds[i], Arrive, false, false, 0)
  {
    if kinds == [] then []
    else Newcomers(kinds[..|kinds| - 1]) + [Animal(kinds[|kinds| - 1], Arrive, false, false, 0)]
  }

  /** init_catmousesem, and the animals about to start. */
  function Init(kinds: seq<Kind>): Kitchen {
    Kitchen(Shared(1, 1, 0, 0, 0, 0, true, false, false, 0, 0, 0, 0, false), Newcomers(kinds))
  }

  /** The states of a run in which animal order[k] takes step k. */
  predicate IsRun(s: Kitchen, order: seq<nat>, t: Kitchen)
    decreases |order|
  {
    if order == [] then s == t
    else order[0] < |s.animals| && Ready(s.sh, s.animals[order[0]]) && IsRun(Step(s, order[0]), order[1..], t)
  }

  // ------------------------------------------------------------------ counting

  function One(b: bool): nat { if b then 1 else 0 }

  function Count(herd: seq<Animal>, p: Animal -> bool): nat {
    if herd == [] then 0 else Count(herd[..|herd| - 1], p) + One(p(herd[|herd| - 1]))
  }

  lemma {:induction false} CountUpdate(herd: seq<Animal>, i: nat, a: Animal, p: Animal -> bool)
    requires i < |herd|
    ensures Count(herd[i := a], p) == Count(herd, p) - One(p(herd[i])) + One(p(a))
  {
    var n := |herd| - 1;
    if i < n {
      CountUpdate(herd[..n], i, a, p);
      assert herd[i := a][..n] == herd[..n][i := a];
    } else {
      assert herd[i := a][..n] == herd[..n];
    }
  }

  lemma {:induction false} CountMember(herd: seq<Animal>, i: nat, p: Animal -> bool)
    requires i < |herd| && p(herd[i])
    ensures Count(herd, p) >= 1
  {
    if i < |herd| - 1 {
      CountMember(herd[..|herd| - 1], i, p);
    }
  }

  lemma {:induction false} CountPair(herd: seq<Animal>, i: nat, j: nat, p: Animal -> bool)
    requires i < j < |herd| && p(herd[i]) && p(herd[j])
    ensures Count(herd, p) >= 2
  {
    var n := |herd| - 1;
    if j < n {
      CountPair(herd[..n], i, j, p);
    } else {
      CountMember(herd[..n], i, p);
    }
  }

  lemma {:induction false} CountNone(herd: seq<Animal>, p: Animal -> bool)
    requires forall i :: 0 <= i < |herd| ==> !p(herd[i])
    ensures Count(herd, p) == 0
  {
    if herd != [] {
      CountNone(herd[..|herd| - 1], p);
    }
  }

  // ---------------------------------------------------------------- invariant

  /** Between P(mutex) and V(mutex). */
  predicate InMutexAt(pc: Pc) {
    || pc.Look? || pc.TakeKitchen? || pc.Open? || pc.CountUp? || pc.Counted? || pc.Entered?
    || pc.Ask? || pc.Admit? || pc.Invited? || pc.CountDown? || pc.Discounted? || pc.Told?
    || pc.AskOther? || pc.AskOwn? || pc.CallOther? || pc.CallOwn? || pc.Reopen? || pc.Passed?
    || pc.Tally? || pc.SignalAll? || pc.Close?
  }

  predicate InMutex(a: Animal) { InMutexAt(a.pc) }

  /** Between P(dish_sem) and V(dish_sem). */
  predicate InDishAt(pc: Pc) {
    || pc.See1? || pc.Take1? || pc.See2? || pc.Take2? || pc.Taken? || pc.PutDown?
    || pc.Put?
  }

  predicate InDish(a: Animal) { InDishAt(a.pc) }

  predicate Holds(a: Animal) {
    a.pc.Taken? || a.pc.Eat? || a.pc.PutDown?
  }

  predicate Holds1(a: Animal) { Holds(a) && a.dish == 1 }

  predicate Holds2(a: Animal) { Holds(a) && a.dish == 2 }

  /** Between the two changes of the wait count. */
  predicate IsWaitingAt(pc: Pc) {
    || pc.Counted? || pc.Wait? || pc.Enter? || pc.Entered? || pc.Invite? || pc.Ask?
    || pc.Admit? || pc.Invited? || pc.Approach? || pc.See1? || pc.Take1? || pc.See2?
    || pc.Take2? || pc.Taken? || pc.Eat? || pc.PutDown? || pc.Put? || pc.Leave?
    || pc.CountDown?
  }

  predicate IsWaiting(a: Animal) { IsWaitingAt(a.pc) }

  predicate WaitingCat(a: Animal) { IsWaiting(a) && a.kind == Cat }

  predicate WaitingMouse(a: Animal) { IsWaiting(a) && a.kind == Mouse }

  predicate FedAt(pc: Pc) { pc.SignalAll? || pc.Close? || pc.Gone? }

  predicate Fed(a: Animal) { FedAt(a.pc) }

  /** Past V(all_done). */
  predicate Signalled(a: Animal) { a.pc.Close? || a.pc.Gone? }

  predicate FedCat(a: Animal) { Fed(a) && a.kind == Cat }

  predicate FedMouse(a: Animal) { Fed(a) && a.kind == Mouse }

  /** Past P(done) or V(done). */
  predicate DepartedAt(pc: Pc) {
    || pc.Tell? || pc.Told? || pc.Pass? || pc.AskOther? || pc.AskOwn? || pc.CallOther?
    || pc.CallOwn? || pc.Reopen? || pc.Passed? || pc.Finish? || pc.Tally? || pc.SignalAll?
    || pc.Close? || pc.Gone?
  }

  predicate Departed(a: Animal) { DepartedAt(a.pc) }

  predicate FirstDeparted(a: Animal) { Departed(a) && a.first }

  predicate OtherDeparted(a: Animal) { Departed(a) && !a.first }

  /** Not yet past the place where the first animal of a group lets another in. */
  predicate EarlyAt(pc: Pc) {
    || pc.Arrive? || pc.Look? || pc.TakeKitchen? || pc.Open? || pc.CountUp? || pc.Counted?
    || pc.Wait? || pc.Enter? || pc.Entered? || pc.Invite? || pc.Ask?
  }

  predicate Early(a: Animal) { EarlyAt(a.pc) }

  /** What an animal knows of the dishes between its steps. */
  predicate KnowsDish(sh: Shared, a: Animal) {
    && (a.pc.Take1? ==> !sh.busy1)
    && (a.pc.See2? && !sh.panicked ==> sh.busy1)
    && (a.pc.Take2? && !sh.panicked ==> !sh.busy2)
    && (Holds(a) ==> a.dish == 1 || a.dish == 2)
  }

  /** What it knows of its own role. */
  predicate KnowsRole(a: Animal) {
    && (a.pc.Invite? || a.pc.Ask? || a.pc.Admit? || a.pc.Invited? ==> a.first)
    && (a.first && !Early(a) ==> a.another)
    && (a.pc.SignalDone? ==> !a.first) && (a.pc.WaitDone? ==> a.first)
    && (a.pc.Arrive? || a.pc.Look? || a.pc.TakeKitchen? || a.pc.Open? ==> !a.first)
  }

  predicate Knows(sh: Shared, a: Animal) {
    KnowsDish(sh, a) && KnowsRole(a)
  }

  ghost predicate Guarded(s: Kitchen) {
    && s.sh.mutex >= 0 && s.sh.mutex + Count(s.animals, InMutex) == 1
    && s.sh.dishSem >= 0 && s.sh.dishSem + Count(s.animals, InDish) == 1
  }

  ghost predicate Dishes(s: Kitchen) {
    && Count(s.animals, Holds1) == One(s.sh.busy1)
    && Count(s.animals, Holds2) == One(s.sh.busy2)
  }

  /** The wait counts are the numbers of animals that wait or eat. */
  ghost predicate Waits(s: Kitchen) {
    s.sh.cats == Count(s.animals, WaitingCat) && s.sh.mice == Count(s.animals, WaitingMouse)
  }

  ghost predicate Tallies(s: Kitchen) {
    s.sh.catsDone == Count(s.animals, FedCat) && s.sh.miceDone == Count(s.animals, FedMouse)
  }

  /** all_done has been signalled once for each animal past that signal. */
  ghost predicate Signals(s: Kitchen) {
    s.sh.allDone == Count(s.animals, Signalled)
  }

  /** Every first that left was matched by a second that left. */
  ghost predicate Pairs(s: Kitchen) {
    s.sh.done >= 0 && s.sh.done + Count(s.animals, FirstDeparted) == Count(s.animals, OtherDeparted)
  }

  ghost predicate Known(s: Kitchen) {
    forall i :: 0 <= i < |s.animals| ==> Knows(s.sh, s.animals[i])
  }

  ghost predicate Inv(s: Kitchen) {
    Guarded(s) && Dishes(s) && Waits(s) && Tallies(s) && Signals(s) && Pairs(s) && Known(s)
  }

  lemma InitInv(kinds: seq<Kind>)
    ensures Inv(Init(kinds))
  {
    hide Count;
    NewcomersCount(kinds, InMutex);
    NewcomersCount(kinds, InDish);
    NewcomersCount(kinds, Holds1);
    NewcomersCount(kinds, Holds2);
    NewcomersCount(kinds, WaitingCat);
    NewcomersCount(kinds, WaitingMouse);
    NewcomersCount(kinds, FedCat);
    NewcomersCount(kinds, FedMouse);
    NewcomersCount(kinds, Signalled);
    NewcomersCount(kinds, FirstDeparted);
    NewcomersCount(kinds, OtherDeparted);
  }

  lemma NewcomersCount(kinds: seq<Kind>, p: Animal -> bool)
    requires !p(Animal(Cat, Arrive, false, false, 0)) && !p(Animal(Mouse, Arrive, false, false, 0))
    ensures Count(Newcomers(kinds), p) == 0
  {
    hide Count;
    forall i | 0 <= i < |kinds| ensures !p(Newcomers(kinds)[i]) {
      assert kinds[i] == Cat || kinds[i] == Mouse;
    }
    CountNone(Newcomers(kinds), p);
  }

  // What one step does to each count and to the animal's own place.

  /** One thing begins with action `on`, ends with action `off`, and nothing else changes it. */
  predicate Switches(before: bool, after: bool, on: bool, off: bool) {
    if on then !before && after else if off then before && !after else before == after
  }

  predicate NeedsMutex(pc: Pc) {
    pc.Arrive? || pc.Enter? || pc.Invite? || pc.Leave? || pc.Tell? || pc.Pass? || pc.Finish?
  }

  predicate FreesMutex(pc: Pc) {
    pc.Counted? || pc.Entered? || pc.Invited? || pc.Discounted? || pc.Told? || pc.Passed? || pc.Close?
  }

  lemma Actions(pc: Pc, k: Kind, d: int)
    ensures ActOf(pc, k, d) == P(MutexSem) <==> NeedsMutex(pc)
    ensures ActOf(pc, k, d) == V(MutexSem) <==> FreesMutex(pc)
    ensures ActOf(pc, k, d) == P(DishSem) <==> pc.Approach? || pc.Eat?
    ensures ActOf(pc, k, d) == V(DishSem) <==> pc.Taken? || pc.Put?
  {
  }

  lemma DoneActions(sh: Shared, a: Animal)
    ensures Do(sh, Action(a)).done == sh.done - One(a.pc.WaitDone?) + One(a.pc.SignalDone?)
    ensures a.pc.WaitDone? ==> Action(a) == P(DoneSem)
  {
  }

  lemma CountActions(pc: Pc, k: Kind, d: int)
    ensures pc.CountUp? ==> ActOf(pc, k, d) == AddWait(k, 1)
    ensures pc.CountDown? ==> ActOf(pc, k, d) == AddWait(k, -1)
    ensures ActOf(pc, k, d).AddWait? <==> pc.CountUp? || pc.CountDown?
    ensures pc.Tally? ==> ActOf(pc, k, d) == AddDone(k)
    ensures ActOf(pc, k, d).AddDone? <==> pc.Tally?
  {
  }

  lemma MutexStep(pc: Pc, t: bool, f: bool, n: bool)
    ensures Switches(InMutexAt(pc), InMutexAt(Goes(pc, t, f, n)), NeedsMutex(pc), FreesMutex(pc))
  {
  }

  lemma DishSemStep(pc: Pc, t: bool, f: bool, n: bool)
    ensures Switches(InDishAt(pc), InDishAt(Goes(pc, t, f, n)), pc.Approach? || pc.Eat?, pc.Taken? || pc.Put?)
  {
  }

  lemma WaitStep(pc: Pc, t: bool, f: bool, n: bool)
    ensures Switches(IsWaitingAt(pc), IsWaitingAt(Goes(pc, t, f, n)), pc.CountUp?, pc.CountDown?)
  {
  }

  lemma FedStep(pc: Pc, t: bool, f: bool, n: bool)
    ensures Switches(FedAt(pc), FedAt(Goes(pc, t, f, n)), pc.Tally?, false)
  {
  }

  lemma DoneStep(pc: Pc, t: bool, f: bool, n: bool)
    requires pc.Discounted? && f ==> n
    ensures Switches(DepartedAt(pc), DepartedAt(Goes(pc, t, f, n)), pc.WaitDone? || pc.SignalDone?, false)
  {
  }

  lemma HoldStep(sh: Shared, a: Animal)
    requires Knows(sh, a)
    ensures Switches(Holds1(a), Holds1(NextLocal(sh, a)), Action(a) == SetBusy(1, true), Action(a) == SetBusy(1, false))
    ensures Switches(Holds2(a), Holds2(NextLocal(sh, a)), Action(a) == SetBusy(2, true), Action(a) == SetBusy(2, false))
    ensures Action(a).SetBusy? ==> Action(a).d == 1 || Action(a).d == 2
    ensures Action(a) == SetBusy(1, true) ==> !sh.busy1
    ensures Action(a) == SetBusy(2, true) && !sh.panicked ==> !sh.busy2
  {
    hide EarlyAt;
  }

  lemma LocalFacts(sh: Shared, a: Animal)
    ensures var b := NextLocal(sh, a);
      b.pc == Goes(a.pc, Test(sh, a), a.first, a.another) && b.kind == a.kind && (!a.pc.Open? ==> b.first == a.first)
  {
    hide Goes, Test;
  }

  lemma DepartStep(sh: Shared, a: Animal)
    requires Knows(sh, a)
    ensures Switches(FirstDeparted(a), FirstDeparted(NextLocal(sh, a)), a.pc.WaitDone?, false)
    ensures Switches(OtherDeparted(a), OtherDeparted(NextLocal(sh, a)), a.pc.SignalDone?, false)
  {
    hide Goes, NextLocal, Test;
    LocalFacts(sh, a);
    DoneStep(a.pc, Test(sh, a), a.first, a.another);
    assert a.pc.Open? ==> !DepartedAt(a.pc);
    hide DepartedAt;
  }

  lemma GuardedKept(s: Kitchen, i: nat)
    requires Guarded(s) && i < |s.animals| && Ready(s.sh, s.animals[i])
    ensures Guarded(Step(s, i))
  {
    hide Count, ActOf, Goes, InMutexAt, InDishAt, NeedsMutex, FreesMutex, Test, NextLocal;
    var a, b := s.animals[i], NextLocal(s.sh, s.animals[i]);
    LocalFacts(s.sh, a);
    CountUpdate(s.animals, i, b, InMutex);
    CountUpdate(s.animals, i, b, InDish);
    Actions(a.pc, a.kind, a.dish);
    MutexStep(a.pc, Test(s.sh, a), a.first, a.another);
    DishSemStep(a.pc, Test(s.sh, a), a.first, a.another);
  }

  lemma DishesKept(s: Kitchen, i: nat)
    requires Inv(s) && i < |s.animals| && Ready(s.sh, s.animals[i])
    ensures Dishes(Step(s, i))
  {
    hide Count, Waits, Tallies, Signals, Pairs, Guarded, ActOf, NextLocal, Knows, Holds1, Holds2;
    var a, b := s.animals[i], NextLocal(s.sh, s.animals[i]);
    CountUpdate(s.animals, i, b, Holds1);
    CountUpdate(s.animals, i, b, Holds2);
    if Holds1(a) {
      CountMember(s.animals, i, Holds1);
    }
    if Holds2(a) {
      CountMember(s.animals, i, Holds2);
    }
    HoldStep(s.sh, a);
  }

  lemma WaitsKept(s: Kitchen, i: nat)
    requires Waits(s) && i < |s.animals| && Ready(s.sh, s.animals[i])
    ensures Waits(Step(s, i))
  {
    hide Count, ActOf, Goes, IsWaitingAt, Test, NextLocal;
    var a, b := s.animals[i], NextLocal(s.sh, s.animals[i]);
    LocalFacts(s.sh, a);
    CountUpdate(s.animals, i, b, WaitingCat);
    CountUpdate(s.animals, i, b, WaitingMouse);
    CountActions(a.pc, a.kind, a.dish);
    WaitStep(a.pc, Test(s.sh, a), a.first, a.another);
  }

  lemma TalliesKept(s: Kitchen, i: nat)
    requires Tallies(s) && i < |s.animals| && Ready(s.sh, s.animals[i])
    ensures Tallies(Step(s, i))
  {
    hide Count, ActOf, Goes, FedAt, Test, NextLocal;
    var a, b := s.animals[i], NextLocal(s.sh, s.animals[i]);
    LocalFacts(s.sh, a);
    CountUpdate(s.animals, i, b, FedCat);
    CountUpdate(s.animals, i, b, FedMouse);
    CountActions(a.pc, a.kind, a.dish);
    FedStep(a.pc, Test(s.sh, a), a.first, a.another);
  }

  lemma SignalStep(pc: Pc, t: bool, f: bool, n: bool)
    ensures var p := Goes(pc, t, f, n);
      Switches(pc.Close? || pc.Gone?, p.Close? || p.Gone?, pc.SignalAll?, false)
  {
  }

  lemma SignalActions(sh: Shared, a: Animal)
    ensures Do(sh, Action(a)).allDone == sh.allDone + One(a.pc.SignalAll?)
  {
  }

  lemma SignalsKept(s: Kitchen, i: nat)
    requires Signals(s) && i < |s.animals| && Ready(s.sh, s.animals[i])
    ensures Signals(Step(s, i))
  {
    hide Count, ActOf, Goes, Test, NextLocal, Do;
    var a, b := s.animals[i], NextLocal(s.sh, s.animals[i]);
    LocalFacts(s.sh, a);
    SignalActions(s.sh, a);
    CountUpdate(s.animals, i, b, Signalled);
    SignalStep(a.pc, Test(s.sh, a), a.first, a.another);
  }

  lemma PairsKept(s: Kitchen, i: nat)
    requires Pairs(s) && i < |s.animals| && Ready(s.sh, s.animals[i]) && Knows(s.sh, s.animals[i])
    ensures Pairs(Step(s, i))
  {
    var a, b := s.animals[i], NextLocal(s.sh, s.animals[i]);
    DoneActions(s.sh, a);
    hide Count, ActOf, NextLocal, Knows, FirstDeparted, OtherDeparted, Do;
    DepartStep(s.sh, a);
    CountUpdate(s.animals, i, b, FirstDeparted);
    CountUpdate(s.animals, i, b, OtherDeparted);
  }

  /** The animal that moved. */
  lemma MoverKnows(s: Kitchen, i: nat)
    requires Inv(s) && i < |s.animals| && Ready(s.sh, s.animals[i])
    ensures Knows(Step(s, i).sh, Step(s, i).animals[i])
  {
    hide Count, Dishes, Guarded, Tallies, Signals, Pairs, KnowsDish, KnowsRole, Do, NextLocal, ActOf;
    var a := s.animals[i];
    MoverDish(s.sh, a);
    if a.pc.Ask? {
      if a.kind == Cat {
        CountMember(s.animals, i, WaitingCat);
      } else {
        CountMember(s.animals, i, WaitingMouse);
      }
    }
    MoverRole(s.sh, a);
  }

  lemma MoverDish(sh: Shared, a: Animal)
    requires Ready(sh, a) && KnowsDish(sh, a)
    ensures KnowsDish(Do(sh, Action(a)), NextLocal(sh, a))
  {
    hide Goes, NextLocal, ActOf, Ready;
    DishPlaces(a.pc, Test(sh, a), a.first, a.another);
    LocalFacts(sh, a);
    LocalDish(sh, a);
    SeeActions(a.pc, a.kind, a.dish);
  }

  /** The places at the dishes are reached one from the other. */
  lemma DishPlaces(pc: Pc, t: bool, f: bool, n: bool)
    ensures var p := Goes(pc, t, f, n);
      && (p.Take1? ==> pc.See1? && !t) && (p.See2? ==> pc.See1? && t) && (p.Take2? ==> pc.See2?)
      && (p.Taken? || p.Eat? || p.PutDown? ==> pc.Take1? || pc.Take2? || pc.Taken? || pc.Eat?)
  {
  }

  lemma LocalDish(sh: Shared, a: Animal)
    ensures NextLocal(sh, a).dish == if a.pc.Take1? then 1 else if a.pc.Take2? then 2 else a.dish
  {
    hide Goes, Test;
  }

  lemma SeeActions(pc: Pc, k: Kind, d: int)
    ensures pc.See1? ==> ActOf(pc, k, d) == Nothing
    ensures pc.See2? ==> ActOf(pc, k, d) == CheckDish2
  {
  }

  lemma MoverRole(sh: Shared, a: Animal)
    requires KnowsRole(a) && (a.pc.Ask? ==> Waiting(sh, a.kind) > 0)
    ensures KnowsRole(NextLocal(sh, a))
  {
  }

  /** The others: the dish flags change under dish_sem only. */
  lemma OthersKnow(s: Kitchen, i: nat, j: nat)
    requires Inv(s) && i < |s.animals| && Ready(s.sh, s.animals[i]) && j < |s.animals| && j != i
    ensures Knows(Step(s, i).sh, s.animals[j])
  {
    hide Count, Dishes, Waits, Tallies, Signals, Pairs, KnowsRole, InDishAt, ActOf, KnowsDish, NextLocal, Do;
    var a, c := s.animals[i], s.animals[j];
    if InDish(a) && InDish(c) {
      if i < j {
        CountPair(s.animals, i, j, InDish);
      } else {
        CountPair(s.animals, j, i, InDish);
      }
    }
    OtherDish(s.sh, a, c);
  }

  lemma OtherDish(sh: Shared, a: Animal, c: Animal)
    requires Ready(sh, a) && KnowsDish(sh, c) && !(InDish(a) && InDish(c))
    ensures KnowsDish(Do(sh, Action(a)), c)
  {
  }

  /** Every step of every animal keeps the invariant. */
  lemma StepKeeps(s: Kitchen, i: nat)
    requires Inv(s) && i < |s.animals| && Ready(s.sh, s.animals[i])
    ensures Inv(Step(s, i))
  {
    GuardedKept(s, i);
    DishesKept(s, i);
    WaitsKept(s, i);
    TalliesKept(s, i);
    SignalsKept(s, i);
    PairsKept(s, i);
    MoverKnows(s, i);
    hide Guarded, Dishes, Waits, Tallies, Signals, Pairs, Knows, Do, NextLocal, ActOf;
    var t := Step(s, i);
    forall j | 0 <= j < |t.animals| ensures Knows(t.sh, t.animals[j]) {
      if j != i {
        OthersKnow(s, i, j);
      }
    }
  }

  lemma {:induction false} RunKeeps(s: Kitchen, order: seq<nat>, t: Kitchen)
    requires Inv(s) && IsRun(s, order, t)
    ensures Inv(t) && |t.animals| == |s.animals|
    decreases |order|
  {
    hide Inv, Do, NextLocal;
    if order != [] {
      StepKeeps(s, order[0]);
      RunKeeps(Step(s, order[0]), order[1..], t);
    }
  }

  // ----------------------------------------------------------------- theorems

  /** In every state of every run each dish is held by at most one animal, and it
      is marked busy exactly while it is held. */
  lemma DishesExclusive(kinds: seq<Kind>, order: seq<nat>, s: Kitchen, d: int, i: nat, j: nat)
    requires IsRun(Init(kinds), order, s) && (d == 1 || d == 2)
    requires i < |s.animals| && j < |s.animals| && Holds(s.animals[i]) && Holds(s.animals[j])
    requires s.animals[i].dish == d && s.animals[j].dish == d
    ensures i == j && (if d == 1 then s.sh.busy1 else s.sh.busy2)
  {
    hide Guarded, Waits, Tallies, Signals, Pairs, Known;
    InitInv(kinds);
    RunKeeps(Init(kinds), order, s);
    var p := if d == 1 then Holds1 else Holds2;
    CountMember(s.animals, i, p);
    if i < j {
      CountPair(s.animals, i, j, p);
    } else if j < i {
      CountPair(s.animals, j, i, p);
    }
  }

  lemma BusyIsHeld(kinds: seq<Kind>, order: seq<nat>, s: Kitchen)
    requires IsRun(Init(kinds), order, s)
    ensures s.sh.busy1 <==> exists i :: 0 <= i < |s.animals| && Holds1(s.animals[i])
    ensures s.sh.busy2 <==> exists i :: 0 <= i < |s.animals| && Holds2(s.animals[i])
  {
    InitInv(kinds);
    RunKeeps(Init(kinds), order, s);
    SomeCounted(s.animals, Holds1);
    SomeCounted(s.animals, Holds2);
  }

  lemma SomeCounted(herd: seq<Animal>, p: Animal -> bool)
    ensures Count(herd, p) > 0 <==> exists i :: 0 <= i < |herd| && p(herd[i])
  {
    if i :| 0 <= i < |herd| && p(herd[i]) {
      CountMember(herd, i, p);
    } else {
      CountNone(herd, p);
    }
  }

  /** Who holds a dish, and so may be eating. */
  ghost function Eaters(s: Kitchen): set<nat> {
    set i: nat | i < |s.animals| && Holds(s.animals[i])
  }

  lemma AtMostTwo(s: Kitchen, e: set<nat>)
    requires e <= Eaters(s) && Dishes(s) && Known(s)
    ensures |e| <= 2
  {
    hide Count;
    if e != {} {
      var i :| i in e;
      var e1 := e - {i};
      assert |e| == |e1| + 1;
      if e1 != {} {
        var j :| j in e1;
        var e2 := e1 - {j};
        assert |e1| == |e2| + 1;
        if e2 != {} {
          var k :| k in e2;
          TwoDishesThreeEaters(s, i, j, k);
        }
      }
    }
  }

  lemma SameDish(s: Kitchen, i: nat, j: nat)
    requires Dishes(s) && Known(s) && i < |s.animals| && j < |s.animals| && i != j
    requires Holds(s.animals[i]) && Holds(s.animals[j])
    ensures s.animals[i].dish != s.animals[j].dish
  {
    var lo, hi := if i < j then i else j, if i < j then j else i;
    if s.animals[i].dish == s.animals[j].dish {
      if s.animals[i].dish == 1 {
        CountPair(s.animals, lo, hi, Holds1);
      } else {
        CountPair(s.animals, lo, hi, Holds2);
      }
    }
  }

  lemma TwoDishesThreeEaters(s: Kitchen, i: nat, j: nat, k: nat)
    requires Dishes(s) && Known(s) && i < |s.animals| && j < |s.animals| && k < |s.animals|
    requires Holds(s.animals[i]) && Holds(s.animals[j]) && Holds(s.animals[k])
    ensures i == j || j == k || i == k
  {
    if i != j && j != k && i != k {
      SameDish(s, i, j);
      SameDish(s, j, k);
      SameDish(s, i, k);
    }
  }

  /** At most two animals eat at once. */
  lemma TwoEaters(kinds: seq<Kind>, order: seq<nat>, s: Kitchen)
    requires IsRun(Init(kinds), order, s)
    ensures |Eaters(s)| <= 2
  {
    InitInv(kinds);
    RunKeeps(Init(kinds), order, s);
    AtMostTwo(s, Eaters(s));
  }

  /** The first of a group counts itself when it asks whether another is waiting,
      so it always lets another in and always waits for one to be done: those who
      left as firsts never outnumber those who left as seconds. */
  lemma FirstAlwaysWaits(kinds: seq<Kind>, order: seq<nat>, s: Kitchen, i: nat)
    requires IsRun(Init(kinds), order, s) && i < |s.animals| && s.animals[i].first && !Early(s.animals[i])
    ensures s.animals[i].another
    ensures Count(s.animals, FirstDeparted) <= Count(s.animals, OtherDeparted)
  {
    InitInv(kinds);
    RunKeeps(Init(kinds), order, s);
  }

  // ---------------------------------------------------------------- the driver

  predicate IsCat(a: Animal) { a.kind == Cat }

  predicate IsMouse(a: Animal) { a.kind == Mouse }

  lemma {:induction false} CountWithin(herd: seq<Animal>, p: Animal -> bool, q: Animal -> bool)
    requires forall i :: 0 <= i < |herd| ==> p(herd[i]) ==> q(herd[i])
    ensures Count(herd, p) <= Count(herd, q)
    ensures Count(herd, p) == Count(herd, q) <==> forall i :: 0 <= i < |herd| ==> q(herd[i]) ==> p(herd[i])
  {
    if herd != [] {
      CountWithin(herd[..|herd| - 1], p, q);
    }
  }

  /** The tallies the driver waits for reach the numbers of cats and mice exactly when
      every animal has eaten, and every animal that is gone has signalled. */
  lemma DriverStops(kinds: seq<Kind>, order: seq<nat>, s: Kitchen)
    requires IsRun(Init(kinds), order, s)
    ensures s.sh.catsDone >= Count(s.animals, IsCat) && s.sh.miceDone >= Count(s.animals, IsMouse) <==>
      forall i :: 0 <= i < |s.animals| ==> Fed(s.animals[i])
    ensures s.sh.allDone == Count(s.animals, Signalled) <= s.sh.catsDone + s.sh.miceDone
  {
    InitInv(kinds);
    RunKeeps(Init(kinds), order, s);
    hide Count, Guarded, Dishes, Waits, Pairs, Known;
    CountWithin(s.animals, FedCat, IsCat);
    CountWithin(s.animals, FedMouse, IsMouse);
    SplitFed(s.animals);
    CountWithin(s.animals, Signalled, Fed);
    EachIsOne(s.animals);
  }

  lemma EachIsOne(herd: seq<Animal>)
    ensures (forall i :: 0 <= i < |herd| ==> Fed(herd[i])) <==>
      (forall i :: 0 <= i < |herd| ==> IsCat(herd[i]) ==> FedCat(herd[i])) &&
      (forall i :: 0 <= i < |herd| ==> IsMouse(herd[i]) ==> FedMouse(herd[i]))
  {
    hide FedAt;
    if forall i :: 0 <= i < |herd| ==> Fed(herd[i]) {
    } else if (forall i :: 0 <= i < |herd| ==> IsCat(herd[i]) ==> FedCat(herd[i])) &&
              (forall i :: 0 <= i < |herd| ==> IsMouse(herd[i]) ==> FedMouse(herd[i])) {
      forall i | 0 <= i < |herd| ensures Fed(herd[i]) {
        assert IsCat(herd[i]) || IsMouse(herd[i]);
      }
    }
  }

  lemma {:induction false} SplitFed(herd: seq<Animal>)
    ensures Count(herd, Fed) == Count(herd, FedCat) + Count(herd, FedMouse)
  {
    if herd != [] {
      hide FedAt;
      SplitFed(herd[..|herd| - 1]);
    }
  }
}
