/** random, srandom, initstate and setstate (libc/random.c). State arrays are
    arrays of 32-bit words; `state` in the source points at word 1 of the current
    one, and fptr and rptr are kept here relative to it. */
module Random {
  import opened Basics
  import opened RandomModel

  /** The largest generator that `n` bytes of state have room for. */
  function TypeForBytes(n: nat): (t: nat)
    requires n >= 8
    ensures t < 5 && (t > 0 ==> 4 * (DEGREES[t] + 1) <= n)
    ensures forall u :: t < u < 5 ==> n < 4 * (DEGREES[u] + 1)
  {
    if n < 32 then 0 else if n < 64 then 1 else if n < 128 then 2 else if n < 256 then 3 else 4
  }

  lemma SliceUpdate(a: seq<int>, deg: nat, f: nat, x: int)
    requires f < deg < |a|
    ensures a[1 + f := x][1..1 + deg] == a[1..1 + deg][f := x]
  {
  }

  lemma TypeFacts(t: int)
    requires 0 < t < MAX_TYPES
    ensures 0 < SEPS[t] < DEGREES[t] <= 63
  {
  }

  lemma ShiftInArray(a: seq<int>, deg: nat, sep: nat, r: nat)
    requires 0 < sep < deg < |a| && r < deg
    ensures var f := Front(deg, sep, r); var x := Add32(a[1 + f], a[1 + r]);
      var g := Additive(sep, Rotated(a[1..1 + deg], f));
      && Additive(sep, Rotated(a[1 + f := x][1..1 + deg], Up(f, deg))) == Advance(g)
      && x / 2 == Output(g)
  {
    hide Rotated, Add32, Front;
    var f := Front(deg, sep, r);
    var tbl := a[1..1 + deg];
    FrontInRange(deg, sep, r);
    assert tbl[f] == a[1 + f] && tbl[r] == a[1 + r];
    SliceUpdate(a, deg, f, Add32(a[1 + f], a[1 + r]));
    TwoPointersShift(tbl, sep, r);
  }

  lemma FrontInRange(deg: nat, sep: nat, r: nat)
    requires 0 < sep < deg && r < deg
    ensures Front(deg, sep, r) < deg
  {
  }

  /** A state array after one call of random with the rear pointer at `r`. */
  lemma DrawShifts(a: seq<int>, typ: int, r: int)
    requires Fits(a, typ, r) && typ > 0
    ensures var deg, sep := DEGREES[typ], SEPS[typ]; var f := Front(deg, sep, r);
      && f < deg && r < deg
      && var x := Add32(a[1 + f], a[1 + r]); var a' := a[1 + f := x];
      && Fits(a', typ, Up(r, deg)) && Up(f, deg) == Front(deg, sep, Up(r, deg))
      && GenAt(a', typ, Up(r, deg)) == Advance(GenAt(a, typ, r))
      && x / 2 == Output(GenAt(a, typ, r))
      && !(f + 1 == deg && r + 1 == deg)
  {
    hide Rotated, Add32, Advance, Output;
    TypeFacts(typ);
    PointersMove(DEGREES[typ], SEPS[typ], r);
    ShiftInArray(a, DEGREES[typ], SEPS[typ], r);
  }

  lemma FitsRange(a: seq<int>, typ: int, r: int)
    requires Fits(a, typ, r)
    ensures 0 <= typ < MAX_TYPES && |a| > 1 && (typ > 0 ==> 0 <= r < DEGREES[typ] < |a|)
  {
  }

  class Generator {
    var tbl: array<int>
    var randType: int
    var deg: int
    var sep: int
    var fptr: int
    var rptr: int

    ghost predicate Valid()
      reads this, tbl
    {
      && Fits(tbl[..], randType, rptr) && deg == DEGREES[randType] && sep == SEPS[randType]
      && (randType > 0 ==> fptr == Front(deg, sep, rptr))
    }

    /** The generator in use. */
    ghost function G(): (g: Gen)
      requires Valid()
      reads this, tbl
      ensures GenOk(g)
    {
      GenAt(tbl[..], randType, rptr)
    }

    /** Start on a state array that already holds a saved state. */
    constructor (a: array<int>)
      requires Saved(a[..])
      ensures Valid() && tbl == a && G() == SavedGen(a[..]) && Noted()
    {
      tbl := a;
      randType := SavedType(a[0]);
      deg, sep := DEGREES[SavedType(a[0])], SEPS[SavedType(a[0])];
      rptr := SavedRear(a[0]);
      fptr := if SavedType(a[0]) == 0 then 0
              else Front(DEGREES[SavedType(a[0])], SEPS[SavedType(a[0])], SavedRear(a[0]));
    }

    /** The additive part of random. */
    method DrawAdditive() returns (i: int)
      requires Valid() && randType > 0
      modifies this`fptr, this`rptr, tbl
      ensures Valid() && tbl[0] == old(tbl[0])
      ensures i == Output(old(G())) && G() == Advance(old(G())) && 0 <= i < 0x8000_0000
      ensures rptr == Up(old(rptr), deg)
    {
      hide GenAt, Advance, Output, Add32, Fits, Front;
      ghost var a := tbl[..];
      FitsRange(a, randType, rptr);
      DrawShifts(a, randType, rptr);
      var f, r := fptr, rptr;
      tbl[1 + f] := Add32(tbl[1 + f], tbl[1 + r]);
      i := tbl[1 + f] / 2 % 0x8000_0000;
      f := f + 1;
      if f >= deg {
        f := 0;
        r := r + 1;
      } else {
        r := r + 1;
        if r >= deg {
          r := 0;
        }
      }
      assert tbl[..] == a[1 + fptr := Add32(a[1 + fptr], a[1 + rptr])];
      fptr, rptr := f, r;
    }

    /** random: the next number of the generator in use, and no other change. */
    method Draw() returns (i: int)
      requires Valid()
      modifies this`fptr, this`rptr, tbl
      ensures Valid() && tbl[0] == old(tbl[0])
      ensures i == Output(old(G())) && G() == Advance(old(G())) && 0 <= i < 0x8000_0000
      ensures randType > 0 ==> rptr == Up(old(rptr), deg)
    {
      if randType == 0 {
        i := LcgNext(tbl[1]);
        tbl[1] := i;
      } else {
        i := DrawAdditive();
      }
    }

    /** Room for the chosen type; the pointers may be anything. */
    ghost predicate Ready()
      reads this, tbl
    {
      Fits(tbl[..], randType, 0) && deg == DEGREES[randType] && sep == SEPS[randType]
    }

    method FillTable(x: int)
      requires Ready() && randType > 0 && 0 <= x < TWO_TO_32
      modifies tbl
      ensures Ready() && tbl[0] == old(tbl[0])
      ensures tbl[1..1 + deg] == SeedTable(x, deg)
    {
      FitsRange(tbl[..], randType, 0);
      tbl[1] := x;
      var i := 1;
      assert tbl[1..1 + i] == [x];
      while i < deg
        invariant 1 <= i <= deg && tbl[0] == old(tbl[0]) && Words(tbl[..])
        invariant tbl[1..1 + i] == SeedTable(x, i)
      {
        ghost var before := tbl[1..1 + i];
        assert tbl[i] == before[i - 1];
        tbl[1 + i] := SeedNext(tbl[i]);
        assert tbl[1..2 + i] == before + [tbl[1 + i]];
        i := i + 1;
      }
    }

    /** srandom: the seeded generator, cycled ten times. Afterwards the rear
        pointer is back at the start of the table. */
    method Srandom(x: int)
      requires Ready() && 0 <= x < TWO_TO_32
      modifies this`fptr, this`rptr, tbl
      ensures Valid() && tbl[0] == old(tbl[0])
      ensures G() == SeededGen(x, randType)
      ensures randType > 0 ==> rptr == 0 && fptr == sep
    {
      FitsRange(tbl[..], randType, 0);
      if randType == 0 {
        tbl[1] := x;
      } else {
        TypeFacts(randType);
        FillTable(x);
        fptr, rptr := sep, 0;
        Cycle();
      }
    }

    /** Draw ten numbers for each word of the table; the pointers come back to
        where they were. */
    method Cycle()
      requires Valid() && randType > 0 && rptr == 0
      modifies this`fptr, this`rptr, tbl
      ensures Valid() && tbl[0] == old(tbl[0]) && rptr == 0
      ensures G() == AdvanceBy(old(G()), 10 * deg)
    {
      hide GenAt, Advance, Fits, Front, Output, Times;
      FitsRange(tbl[..], randType, 0);
      TypeFacts(randType);
      TenTimes(deg);
      ghost var g, turns := G(), 0;
      var i := 0;
      while i < 10 * deg
        invariant Valid() && tbl[0] == old(tbl[0]) && 0 <= i <= 10 * deg
        invariant 0 <= rptr < deg && i == Times(turns, deg) + rptr
        invariant G() == AdvanceBy(g, i)
      {
        var _ := Draw();
        if rptr == 0 {
          OneMoreTurn(turns, deg);
          turns := turns + 1;
        }
        i := i + 1;
      }
      WholeTurns(turns, 10, deg, rptr);
    }

    /** The zeroth word says what the generator is and where. */
    predicate Noted()
      reads this, tbl
      requires tbl.Length > 0
    {
      SavedType(tbl[0]) == randType && (randType > 0 ==> SavedRear(tbl[0]) == rptr)
    }

    /** Write type and rear pointer into the zeroth word of the current array. */
    method Save()
      requires Valid()
      modifies tbl
      ensures Valid() && tbl[..] == old(tbl[..])[0 := Packed(randType, rptr)]
      ensures G() == old(G()) && Saved(tbl[..]) && SavedGen(tbl[..]) == old(G()) && Noted()
    {
      hide GenAt, Packed, Front;
      ghost var a := tbl[..];
      SaveAndRestore(a, randType, rptr);
      PackedInRange(randType, rptr);
      SavedElsewhere(a, randType, rptr);
      NotedWord(randType, rptr);
      tbl[0] := Packed(randType, rptr);
      assert tbl[..] == a[0 := Packed(randType, rptr)];
    }

    /** initstate: save the current generator, then seed a new one in `arg`. With
        less than 8 bytes only the saving happens. */
    method InitState(seed: int, arg: array<int>, n: nat) returns (ok: bool)
      requires Valid() && 0 <= seed < TWO_TO_32 && Words(arg[..]) && arg.Length * 4 >= n
      modifies this, tbl, arg
      ensures Valid() && (ok <==> n >= 8)
      ensures !ok ==> tbl == old(tbl) && G() == old(G())
      ensures ok ==> tbl == arg && randType == TypeForBytes(n) && G() == SeededGen(seed, randType)
      ensures ok ==> (forall u :: 0 < u < 5 ==> (u <= randType <==> 4 * (DEGREES[u] + 1) <= n))
      ensures ok ==> Saved(arg[..]) && SavedGen(arg[..]) == G() && Noted()
      ensures !ok || arg != old(tbl) ==> Saved(old(tbl)[..]) && SavedGen(old(tbl)[..]) == old(G())
    {
      Save();
      if n < 8 {
        return false;
      }
      hide GenAt, SavedGen;
      randType := TypeForBytes(n);
      deg, sep := DEGREES[randType], SEPS[randType];
      tbl := arg;
      Srandom(seed);
      Save();
      return true;
    }

    /** setstate: save the current generator and go on with the one in `arg`, where
        it stopped. A word that stands for no type is refused. The word is read
        before the current generator is saved, so the array in use is entered at the
        place noted there before, which need not be where its generator is. */
    method SetState(arg: array<int>) returns (ok: bool)
      requires Valid() && arg.Length > 0 && Words(arg[..]) && (SavedType(arg[0]) >= 0 ==> Saved(arg[..]))
      modifies this, tbl
      ensures Valid() && (ok <==> old(SavedType(arg[0])) >= 0)
      ensures !ok ==> tbl == old(tbl) && G() == old(G())
      ensures ok ==> tbl == arg && G() == SavedGen(old(arg[..]))
      ensures ok ==> randType == old(SavedType(arg[0])) && (randType > 0 ==> rptr == old(SavedRear(arg[0])))
      ensures ok && arg != old(tbl) ==> arg[..] == old(arg[..]) && Noted()
      ensures old(tbl)[..] == old(tbl[..][0 := Packed(randType, rptr)])
      ensures arg != old(tbl) ==> Saved(old(tbl)[..]) && SavedGen(old(tbl)[..]) == old(G())
      ensures arg == old(tbl) && old(Noted()) ==> ok && G() == old(G())
      ensures ok && arg == old(tbl) ==>
        (G() == old(G()) <==> old(SameWindow(arg[..], SavedType(arg[0]), SavedRear(arg[0]), randType, rptr)))
    {
      hide GenAt, SavedType, SavedRear, Packed, Front, Fits, Words, SameWindow;
      var typ, rear := SavedType(arg[0]), SavedRear(arg[0]);
      ghost var b := arg[..];
      ghost var w := Packed(randType, rptr);
      if typ >= 0 {
        FitsUpdate(b, typ, rear, randType, rptr, tbl[..]);
        FitsRange(b, typ, rear);
        OtherWord(b, typ, rear, w);
      }
      if typ >= 0 && arg == tbl {
        SameGen(b, typ, rear, randType, rptr);
        if Noted() {
          SameNoted(b, typ, rear, randType, rptr);
        }
      }
      FitsRange(tbl[..], randType, rptr);
      Save();
      if typ < 0 {
        return false;
      }
      assert arg[..] == if arg == tbl then b[0 := w] else b;
      Enter(arg, typ, rear);
      return true;
    }

    /** Go on with type `typ` in `arg`, the rear pointer at `rear`. */
    method Enter(arg: array<int>, typ: int, rear: int)
      requires Fits(arg[..], typ, rear)
      modifies this
      ensures Valid() && tbl == arg && randType == typ && G() == GenAt(arg[..], typ, rear)
      ensures typ > 0 ==> rptr == rear
    {
      randType := typ;
      deg, sep := DEGREES[typ], SEPS[typ];
      tbl := arg;
      if randType != 0 {
        rptr := rear;
        FrontIsMod(deg, sep, rear);
        fptr := (rear + sep) % deg;
      }
    }
  }

  lemma NotedWord(typ: int, r: int)
    requires 0 <= typ < MAX_TYPES && (typ > 0 ==> 0 <= r < 63)
    ensures SavedType(Packed(typ, r)) == typ && (typ > 0 ==> SavedRear(Packed(typ, r)) == r)
  {
    PackedDecodes(typ, if typ > 0 then r else 0);
  }

  lemma PackedInRange(typ: int, r: int)
    requires 0 <= typ < MAX_TYPES && (typ > 0 ==> 0 <= r < 63)
    ensures 0 <= Packed(typ, r) < TWO_TO_32
  {
  }

  /** The zeroth word is not part of the generator. */
  lemma SavedElsewhere(a: seq<int>, typ: int, r: int)
    requires Fits(a, typ, r)
    ensures Fits(a[0 := Packed(typ, r)], typ, r) && GenAt(a[0 := Packed(typ, r)], typ, r) == GenAt(a, typ, r)
  {
    PackedInRange(typ, r);
    var b := a[0 := Packed(typ, r)];
    if typ > 0 {
      assert b[1..1 + DEGREES[typ]] == a[1..1 + DEGREES[typ]];
    }
  }

  /** Saving one generator in the array of another leaves room for the other. */
  lemma FitsUpdate(b: seq<int>, typ: int, r: int, t0: int, r0: int, a: seq<int>)
    requires Fits(b, typ, r) && Fits(a, t0, r0)
    ensures Fits(b[0 := Packed(t0, r0)], typ, r)
  {
    PackedInRange(t0, r0);
  }

  /** No word but the zeroth is looked at. */
  lemma OtherWord(a: seq<int>, typ: int, r: int, w: int)
    requires Fits(a, typ, r) && Fits(a[0 := w], typ, r)
    ensures GenAt(a[0 := w], typ, r) == GenAt(a, typ, r)
  {
    hide Words;
    if typ > 0 {
      assert a[0 := w][1..1 + DEGREES[typ]] == a[1..1 + DEGREES[typ]];
    }
  }

  // --------------------------------------------- setstate on the array in use

  /** The same table, read round from two places, looks the same. */
  ghost predicate SameWindow(a: seq<int>, t: int, r: int, u: int, q: int)
    requires Fits(a, t, r) && Fits(a, u, q)
  {
    t == u && (t > 0 ==>
      var deg, sep, tbl := DEGREES[t], SEPS[t], a[1..1 + DEGREES[t]];
      Rotated(tbl, Front(deg, sep, r)) == Rotated(tbl, Front(deg, sep, q)))
  }

  /** One array holds the same generator for two types and rear pointers exactly
      when the types agree and the table looks the same from both. */
  lemma SameGen(a: seq<int>, t: int, r: int, u: int, q: int)
    requires Fits(a, t, r) && Fits(a, u, q)
    ensures GenAt(a, t, r) == GenAt(a, u, q) <==> SameWindow(a, t, r, u, q)
  {
    hide Words;
    if t > 0 && u > 0 && t != u {
      assert DEGREES[t] != DEGREES[u];
      assert |GenAt(a, t, r).win| == DEGREES[t] && |GenAt(a, u, q).win| == DEGREES[u];
    }
  }

  lemma SameNoted(a: seq<int>, t: int, r: int, u: int, q: int)
    requires Fits(a, t, r) && Fits(a, u, q) && t == u && (t > 0 ==> r == q)
    ensures GenAt(a, t, r) == GenAt(a, u, q)
  {
    hide Words, Rotated;
  }

  /** Where the rear pointer is after `n` calls. */
  function RearAfter(r: nat, deg: nat, n: nat): nat {
    if n == 0 then r else Up(RearAfter(r, deg, n - 1), deg)
  }

  lemma {:induction false} RearIsMod(r: nat, deg: nat, n: nat)
    requires 1 < deg && r < deg
    ensures RearAfter(r, deg, n) == (r + n) % deg
  {
    if n == 0 {
      ModIs(r, deg, 0, r);
    } else {
      RearIsMod(r, deg, n - 1);
      ModAdd(r + (n - 1), 1, deg);
    }
  }

  /** It is back after whole turns and at no other time. */
  lemma RearReturns(r: nat, deg: nat, n: nat)
    requires 1 < deg && r < deg
    ensures RearAfter(r, deg, n) == r <==> n % deg == 0
  {
    RearIsMod(r, deg, n);
    ModAdd(n, r, deg);
  }

  /** Enter a state array, draw `n` numbers and call setstate on the same array. The
      rear pointer, which was at `place`, is kept exactly if `n` is a number of whole
      turns. The generator is kept then, always for type 0, and otherwise exactly if
      the table looks the same from both places. */
  method Reenter(g: Generator, n: nat) returns (place: int)
    requires g.Valid() && g.Noted()
    modifies g, g.tbl
    ensures g.Valid() && g.tbl == old(g.tbl) && g.randType == old(g.randType)
    ensures g.randType > 0 ==> place == (old(g.rptr) + n) % g.deg && g.rptr == old(g.rptr)
    ensures g.randType > 0 ==> (g.rptr == place <==> n % g.deg == 0)
    ensures g.randType == 0 || n % g.deg == 0 ==> g.G() == AdvanceBy(old(g.G()), n)
    ensures g.randType > 0 ==>
      (g.G() == AdvanceBy(old(g.G()), n) <==> SameWindow(g.tbl[..], g.randType, g.rptr, g.randType, place))
  {
    FitsRange(g.tbl[..], g.randType, g.rptr);
    TypeAndRear(g.randType, g.rptr, n);
    hide GenAt, SavedGen, SavedType, SavedRear, Packed, Front, SameWindow, AdvanceBy, RearAfter;
    DrawMany(g, n);
    place := g.rptr;
    ghost var a := g.tbl[..];
    SavedHere(a, g.randType, old(g.rptr));
    var _ := g.SetState(g.tbl);
    WindowsElsewhere(a, g.tbl[..], g.randType, old(g.rptr), place);
  }

  lemma TypeAndRear(t: int, r: int, n: nat)
    requires 0 <= t < MAX_TYPES && (t > 0 ==> 0 <= r < DEGREES[t])
    ensures t > 0 ==> RearAfter(r, DEGREES[t], n) == (r + n) % DEGREES[t]
    ensures t > 0 ==> (RearAfter(r, DEGREES[t], n) == r <==> n % DEGREES[t] == 0)
  {
    if t > 0 {
      TypeFacts(t);
      RearIsMod(r, DEGREES[t], n);
      RearReturns(r, DEGREES[t], n);
    }
  }

  /** The noted word of an array that a generator of that type fits in. */
  lemma SavedHere(a: seq<int>, t: int, r: int)
    requires |a| > 0 && SavedType(a[0]) == t && (t > 0 ==> SavedRear(a[0]) == r) && Fits(a, t, r)
    ensures Words(a) && Saved(a)
  {
  }

  lemma WindowsElsewhere(a: seq<int>, b: seq<int>, t: int, r: int, q: int)
    requires Fits(a, t, r) && Fits(a, t, q) && Fits(b, t, r) && Fits(b, t, q) && |a| > 0 && b == a[0 := b[0]]
    ensures SameWindow(a, t, r, t, q) <==> SameWindow(b, t, r, t, q)
  {
    hide Words;
    if t > 0 {
      assert b[1..1 + DEGREES[t]] == a[1..1 + DEGREES[t]];
    }
  }

  lemma RearSteps(r: nat, deg: nat, n: nat)
    ensures RearAfter(r, deg, 0) == r && RearAfter(r, deg, n + 1) == Up(RearAfter(r, deg, n), deg)
  {
  }

  /** Draw `n` numbers; the noted word stays as it is. */
  method DrawMany(g: Generator, n: nat)
    requires g.Valid()
    modifies g`fptr, g`rptr, g.tbl
    ensures g.Valid() && g.tbl[0] == old(g.tbl[0]) && g.G() == AdvanceBy(old(g.G()), n)
    ensures g.randType > 0 ==> g.rptr == RearAfter(old(g.rptr), g.deg, n)
  {
    hide GenAt, Advance, Output, Fits, Front, AdvanceBy, Stream, RearAfter, Up, GenOk;
    FitsRange(g.tbl[..], g.randType, g.rptr);
    ghost var g0, r := g.G(), if g.randType > 0 then g.rptr else 0;
    StreamSteps(g0, 0);
    RearSteps(r, g.deg, 0);
    var i := 0;
    while i < n
      invariant i <= n && g.Valid() && g.tbl[0] == old(g.tbl[0]) && g.G() == AdvanceBy(g0, i)
      invariant g.randType > 0 ==> g.rptr == RearAfter(r, g.deg, i)
    {
      var _ := g.Draw();
      StreamSteps(g0, i);
      RearSteps(r, g.deg, i);
      i := i + 1;
    }
  }

  lemma RotateBack(tbl: seq<int>, f: nat)
    requires 0 < f <= |tbl|
    ensures var w := Rotated(tbl, f); Rotated(tbl, f - 1) == [w[|tbl| - 1]] + w[..|tbl| - 1]
  {
  }

  /** A state array of type 1, noted at its start. */
  method Example() returns (a: array<int>)
    ensures fresh(a) && a[..] == [1, 2, 0, 0, 0, 0, 0, 0]
    ensures Saved(a[..]) && SavedGen(a[..]) == Additive(3, [0, 0, 0, 0, 2, 0, 0])
  {
    a := new int[8] [1, 2, 0, 0, 0, 0, 0, 0];
    assert a[..] == [1, 2, 0, 0, 0, 0, 0, 0];
    assert a[..][1..8] == [2, 0, 0, 0, 0, 0, 0];
    assert Rotated([2, 0, 0, 0, 0, 0, 0], 3) == [0, 0, 0, 0, 2, 0, 0];
  }

  lemma ExampleDraws()
    ensures Advance(Additive(3, [0, 0, 0, 0, 2, 0, 0])) == Additive(3, [0, 0, 0, 2, 0, 0, 2])
    ensures Output(Additive(3, [0, 0, 0, 2, 0, 0, 2])) == 0
    ensures Output(Additive(3, [2, 0, 0, 0, 2, 0, 0])) == 2
  {
    assert [0, 0, 0, 0, 2, 0, 0][1..] + [2] == [0, 0, 0, 2, 0, 0, 2];
  }

  /** The generator one place back in the table. */
  lemma OnePlaceBack(a: seq<int>)
    requires Fits(a, 1, 1) && GenAt(a, 1, 1) == Additive(3, [0, 0, 0, 2, 0, 0, 2])
    ensures Fits(a, 1, 0) && GenAt(a, 1, 0) == Additive(3, [2, 0, 0, 0, 2, 0, 0])
  {
    hide Words;
    RotateBack(a[1..8], 4);
    assert [2] + [0, 0, 0, 2, 0, 0, 2][..6] == [2, 0, 0, 0, 2, 0, 0];
  }

  /** The comment that setstate on the state in use is harmless is not so: the second
      number of the example is 0, but 2 with such a call before it. */
  method SameArrayLosesPlace() returns (kept: int, lost: int)
    ensures kept == 0 && lost == 2
  {
    var a := Example();
    kept := SecondNumber(a, false);
    var b := Example();
    lost := SecondNumber(b, true);
  }

  method SecondNumber(a: array<int>, reenter: bool) returns (x: int)
    requires a[..] == [1, 2, 0, 0, 0, 0, 0, 0] && Saved(a[..])
    requires SavedGen(a[..]) == Additive(3, [0, 0, 0, 0, 2, 0, 0])
    modifies a
    ensures x == if reenter then 2 else 0
  {
    ExampleDraws();
    ExampleWord();
    hide GenAt, Advance, Output, Fits, Front, Rotated, SavedType, SavedRear, Packed, SameWindow;
    var g := new Generator(a);
    assert g.tbl[0] == a[..][0] == 1;
    var _ := g.Draw();
    OnePlaceBack(a[..]);
    if reenter {
      SavedHere(a[..], 1, 0);
      var _ := g.SetState(a);
    }
    x := g.Draw();
  }

  lemma ExampleWord()
    ensures SavedType(1) == 1 && SavedRear(1) == 0 && Up(0, 7) == 1 && DEGREES[1] == 7
  {
  }

  // ------------------------------------------------------------- interleaving

  datatype Op = DrawOne | SwitchOver

  /** Two generators used in turn, in any order: each hands out its own stream,
      without a gap, across all the switches. */
  method Interleave(g: Generator, other: array<int>, ops: seq<Op>) returns (first: seq<int>, second: seq<int>)
    requires g.Valid() && g.tbl != other && Saved(other[..])
    modifies g, g.tbl, other
    ensures first == Stream(old(g.G()), |first|)
    ensures second == Stream(SavedGen(old(other[..])), |second|)
    ensures |first| == Count(ops).first && |second| == Count(ops).second
  {
    hide GenAt, SavedGen, Advance, Output, Saved, Fits, Stream, AdvanceBy, Count, SavedType, SavedRear, Packed, SameWindow, GenOk;
    SavedFacts(other[..]);
    ghost var g1, g2 := g.G(), SavedGen(other[..]);
    var mine, theirs, swapped := g.tbl, other, false;
    first, second := [], [];
    StreamSteps(g1, 0);
    StreamSteps(g2, 0);
    var i := 0;
    CountNone(ops);
    while i < |ops|
      invariant 0 <= i <= |ops| && g.Valid()
      invariant g.tbl == if swapped then theirs else mine
      invariant first == Stream(g1, |first|) && second == Stream(g2, |second|)
      invariant Count(ops[..i]) == Tally(|first|, |second|, swapped)
      invariant g.G() == if swapped then AdvanceBy(g2, |second|) else AdvanceBy(g1, |first|)
      invariant var idle := if swapped then mine else theirs;
        Saved(idle[..]) && SavedGen(idle[..]) == if swapped then AdvanceBy(g1, |first|) else AdvanceBy(g2, |second|)
    {
      CountStep(ops, i);
      if ops[i] == DrawOne {
        var x := g.Draw();
        if swapped {
          StreamSteps(g2, |second|);
          second := second + [x];
        } else {
          StreamSteps(g1, |first|);
          first := first + [x];
        }
      } else {
        var target := if swapped then mine else theirs;
        SavedFacts(target[..]);
        var _ := g.SetState(target);
        swapped := !swapped;
      }
      i := i + 1;
    }
    assert ops[..i] == ops;
  }

  /** How many numbers each side draws, and which is in use at the end. */
  datatype Tally = Tally(first: nat, second: nat, swapped: bool)

  function Count(ops: seq<Op>): Tally {
    if ops == [] then Tally(0, 0, false)
    else
      var t := Count(ops[..|ops| - 1]);
      if ops[|ops| - 1] == SwitchOver then t.(swapped := !t.swapped)
      else if t.swapped then t.(second := t.second + 1)
      else t.(first := t.first + 1)
  }

  lemma SavedFacts(a: seq<int>)
    requires Saved(a)
    ensures |a| > 0 && Words(a) && SavedType(a[0]) >= 0 && GenOk(SavedGen(a))
  {
  }

  lemma StreamSteps(g: Gen, n: nat)
    requires GenOk(g)
    ensures Stream(g, 0) == [] && AdvanceBy(g, 0) == g
    ensures GenOk(AdvanceBy(g, n)) && AdvanceBy(g, n + 1) == Advance(AdvanceBy(g, n))
    ensures Stream(g, n + 1) == Stream(g, n) + [Output(AdvanceBy(g, n))]
  {
  }

  lemma CountNone(ops: seq<Op>)
    ensures Count(ops[..0]) == Tally(0, 0, false)
  {
  }

  lemma CountStep(ops: seq<Op>, i: nat)
    requires i < |ops|
    ensures var t := Count(ops[..i]);
      Count(ops[..i + 1]) ==
        if ops[i] == SwitchOver then t.(swapped := !t.swapped)
        else if t.swapped then t.(second := t.second + 1)
        else t.(first := t.first + 1)
  {
    assert ops[..i + 1][..i] == ops[..i];
  }

  /** `n` turns of `deg` steps. */
  ghost function Times(n: nat, deg: nat): nat {
    if n == 0 then 0 else Times(n - 1, deg) + deg
  }

  lemma TenTimes(deg: nat)
    ensures Times(0, deg) == 0 && Times(10, deg) == 10 * deg
  {
    assert Times(2, deg) == Times(1, deg) + deg;
    assert Times(3, deg) == Times(2, deg) + deg;
    assert Times(5, deg) == Times(4, deg) + deg == Times(3, deg) + deg + deg;
    assert Times(7, deg) == Times(6, deg) + deg == Times(5, deg) + deg + deg;
    assert Times(9, deg) == Times(8, deg) + deg == Times(7, deg) + deg + deg;
  }

  lemma OneMoreTurn(n: nat, deg: nat)
    ensures Times(n + 1, deg) == Times(n, deg) + deg
  {
  }

  lemma {:induction false} TurnsApart(a: nat, b: nat, deg: nat)
    requires a < b
    ensures Times(a, deg) + deg <= Times(b, deg)
    decreases b
  {
    if a + 1 < b {
      TurnsApart(a, b - 1, deg);
    }
  }

  lemma WholeTurns(q: nat, n: nat, deg: nat, r: nat)
    requires r < deg && Times(q, deg) + r == Times(n, deg)
    ensures r == 0
  {
    if q < n {
      TurnsApart(q, n, deg);
    } else if n < q {
      TurnsApart(n, q, deg);
    }
  }
}
