/** The pseudo-random generators of libc/random.c on values: a linear congruential
    one, and additive feedback seen as a shift register. */
module RandomModel {
  import opened Basics

  const MAX_TYPES: int := 5
  const DEGREES: seq<nat> := [0, 7, 15, 31, 63]
  const SEPS: seq<nat> := [0, 3, 1, 3, 1]

  ghost predicate Words(s: seq<int>) {
    forall i :: 0 <= i < |s| ==> 0 <= s[i] < TWO_TO_32
  }

  /** A generator: what the next numbers depend on. `win` holds the last `deg`
      terms of the recurrence, oldest first. */
  datatype Gen = Lcg(x: int) | Additive(sep: nat, win: seq<int>)

  ghost predicate GenOk(g: Gen) {
    g.Additive? ==> 0 < g.sep < |g.win|
  }

  function LcgNext(x: int): int {
    (x * 1103515245 + 12345) % 0x8000_0000
  }

  /** Addition of longs. */
  function Add32(x: int, y: int): (r: int)
    ensures 0 <= r < TWO_TO_32
    ensures 0 <= x < TWO_TO_32 && 0 <= y < TWO_TO_32 ==> r == x + y || r == x + y - TWO_TO_32
  {
    (x + y) % TWO_TO_32
  }

  /** One term of the recurrence x[n] = x[n - deg] + x[n - sep]. */
  function NewTerm(sep: nat, win: seq<int>): int
    requires 0 < sep < |win|
  {
    Add32(win[0], win[|win| - sep])
  }

  function Advance(g: Gen): Gen
    requires GenOk(g)
  {
    match g
    case Lcg(x) => Lcg(LcgNext(x))
    case Additive(sep, win) => Additive(sep, win[1..] + [NewTerm(sep, win)])
  }

  /** The number handed out; the low bit of a new term is dropped. */
  function Output(g: Gen): int
    requires GenOk(g)
  {
    match g
    case Lcg(x) => LcgNext(x)
    case Additive(sep, win) => NewTerm(sep, win) / 2
  }

  lemma AdvanceOk(g: Gen)
    requires GenOk(g)
    ensures GenOk(Advance(g))
  {
  }

  function AdvanceBy(g: Gen, n: nat): (r: Gen)
    requires GenOk(g)
    ensures GenOk(r)
  {
    if n == 0 then g else AdvanceOk(AdvanceBy(g, n - 1)); Advance(AdvanceBy(g, n - 1))
  }

  /** The first `n` numbers of a generator. */
  function Stream(g: Gen, n: nat): (r: seq<int>)
    requires GenOk(g)
    ensures |r| == n
  {
    if n == 0 then [] else Stream(g, n - 1) + [Output(AdvanceBy(g, n - 1))]
  }

  // -------------------------------------------------------------- recurrence

  /** Term `n` of the sequence that begins with `w` and goes on by
      x[n] = x[n - deg] + x[n - sep] modulo 2^32, where deg = |w|. */
  function Term(w: seq<int>, sep: nat, n: nat): int
    requires 0 < sep < |w|
  {
    if n < |w| then w[n] else Add32(Term(w, sep, n - |w|), Term(w, sep, n - sep))
  }

  /** The register after `n` calls. */
  function Window(w: seq<int>, sep: nat, n: nat): (r: seq<int>)
    requires 0 < sep < |w|
    ensures |r| == |w|
  {
    if n == 0 then w else Window(w, sep, n - 1)[1..] + [NewTerm(sep, Window(w, sep, n - 1))]
  }

  lemma {:induction false} RegisterIsWindow(w: seq<int>, sep: nat, n: nat)
    requires 0 < sep < |w|
    ensures AdvanceBy(Additive(sep, w), n) == Additive(sep, Window(w, sep, n))
  {
    hide NewTerm;
    if n > 0 {
      RegisterIsWindow(w, sep, n - 1);
    }
  }

  lemma NewTermIsNext(w: seq<int>, sep: nat, n: nat, win: seq<int>)
    requires 0 < sep < |w| == |win| && win[0] == Term(w, sep, n) && win[|w| - sep] == Term(w, sep, n + (|w| - sep))
    ensures NewTerm(sep, win) == Term(w, sep, n + |w|)
  {
    hide Add32;
  }

  lemma {:induction false} WindowAt(w: seq<int>, sep: nat, n: nat, i: nat)
    requires 0 < sep < |w| && i < |w|
    ensures Window(w, sep, n)[i] == Term(w, sep, n + i)
    decreases n
  {
    if n > 0 {
      hide Term, NewTerm;
      if i < |w| - 1 {
        WindowAt(w, sep, n - 1, i + 1);
      } else {
        WindowAt(w, sep, n - 1, 0);
        WindowAt(w, sep, n - 1, |w| - sep);
        NewTermIsNext(w, sep, n - 1, Window(w, sep, n - 1));
      }
    }
  }

  /** After `n` calls the register holds terms n to n + deg - 1. */
  lemma RegisterHoldsTerms(w: seq<int>, sep: nat, n: nat)
    requires 0 < sep < |w|
    ensures var g := AdvanceBy(Additive(sep, w), n);
      g.Additive? && g.sep == sep && |g.win| == |w| && forall i :: 0 <= i < |w| ==> g.win[i] == Term(w, sep, n + i)
  {
    hide AdvanceBy, Term, Window;
    RegisterIsWindow(w, sep, n);
    forall i | 0 <= i < |w| ensures Window(w, sep, n)[i] == Term(w, sep, n + i) {
      WindowAt(w, sep, n, i);
    }
  }

  /** Every generated number is the next term of the recurrence, without its low bit. */
  lemma {:induction false} StreamIsRecurrence(w: seq<int>, sep: nat, n: nat, k: nat)
    requires 0 < sep < |w| && k < n
    ensures Stream(Additive(sep, w), n)[k] == Term(w, sep, |w| + k) / 2
    decreases n
  {
    hide Term, NewTerm, AdvanceBy, Window;
    if k == n - 1 {
      RegisterIsWindow(w, sep, k);
      WindowAt(w, sep, k, 0);
      WindowAt(w, sep, k, |w| - sep);
      NewTermIsNext(w, sep, k, Window(w, sep, k));
    } else {
      StreamIsRecurrence(w, sep, n - 1, k);
    }
  }

  // --------------------------------------------------- table and two pointers

  /** The table read round from the front pointer. */
  function Rotated(tbl: seq<int>, f: nat): seq<int>
    requires f <= |tbl|
  {
    tbl[f..] + tbl[..f]
  }

  /** Where the front pointer is when the rear one is at `r`. */
  function Front(deg: nat, sep: nat, r: nat): nat
    requires r < deg && sep < deg
  {
    if r + sep < deg then r + sep else r + sep - deg
  }

  lemma FrontIsMod(deg: nat, sep: nat, r: nat)
    requires r < deg && sep < deg
    ensures Front(deg, sep, r) == (r + sep) % deg
  {
  }

  function Up(i: nat, deg: nat): nat {
    if i + 1 >= deg then 0 else i + 1
  }

  lemma RotatedAt(tbl: seq<int>, sep: nat, r: nat)
    requires 0 < sep < |tbl| && r < |tbl|
    ensures var w := Rotated(tbl, Front(|tbl|, sep, r));
      w[0] == tbl[Front(|tbl|, sep, r)] && w[|tbl| - sep] == tbl[r]
  {
  }

  lemma RotatedShift(tbl: seq<int>, f: nat, x: int)
    requires f < |tbl|
    ensures Rotated(tbl[f := x], Up(f, |tbl|)) == Rotated(tbl, f)[1..] + [x]
  {
    if f + 1 < |tbl| {
      assert tbl[f := x][f + 1..] == tbl[f + 1..];
      assert tbl[f := x][..f + 1] == tbl[..f] + [x];
    } else {
      assert tbl[f := x] == tbl[..f] + [x];
    }
  }

  /** The two pointers stay `sep` apart, and never wrap on the same call. */
  lemma PointersMove(deg: nat, sep: nat, r: nat)
    requires 0 < sep < deg && r < deg
    ensures var f := Front(deg, sep, r);
      Up(f, deg) == Front(deg, sep, Up(r, deg)) && !(f + 1 == deg && r + 1 == deg)
  {
  }

  /** Adding the word at the rear pointer to the one at the front pointer, and
      moving both on, shifts the register. */
  lemma TwoPointersShift(tbl: seq<int>, sep: nat, r: nat)
    requires 0 < sep < |tbl| && r < |tbl|
    ensures var f := Front(|tbl|, sep, r); var x := Add32(tbl[f], tbl[r]);
      && Rotated(tbl[f := x], Up(f, |tbl|)) == Advance(Additive(sep, Rotated(tbl, f))).win
      && Output(Additive(sep, Rotated(tbl, f))) == x / 2
  {
    var f := Front(|tbl|, sep, r);
    RotatedAt(tbl, sep, r);
    RotatedShift(tbl, f, Add32(tbl[f], tbl[r]));
    hide Rotated, Front, Up, Add32;
  }

  // --------------------------------------------------------- saved state word

  /** What the zeroth word of a state array says, read as a signed long. */
  function SavedType(w: int): int {
    if w < TWO_TO_32 / 2 then w % MAX_TYPES else -((TWO_TO_32 - w) % MAX_TYPES)
  }

  function SavedRear(w: int): int {
    if w < TWO_TO_32 / 2 then w / MAX_TYPES else -((TWO_TO_32 - w) / MAX_TYPES)
  }

  function Packed(typ: int, r: int): int {
    if typ == 0 then 0 else MAX_TYPES * r + typ
  }

  /** The packed word gives back the type and the rear pointer. */
  lemma PackedDecodes(typ: int, r: int)
    requires 0 <= typ < MAX_TYPES && 0 <= r < 63
    ensures 0 <= Packed(typ, r) < TWO_TO_32 && SavedType(Packed(typ, r)) == typ
    ensures SavedRear(Packed(typ, r)) == if typ > 0 then r else 0
  {
  }

  ghost predicate Fits(a: seq<int>, typ: int, r: int) {
    && Words(a) && 0 <= typ < MAX_TYPES
    && (typ == 0 ==> |a| >= 2)
    && (typ > 0 ==> |a| > DEGREES[typ] && 0 <= r < DEGREES[typ])
  }

  /** The generator in array `a`, of type `typ` with its rear pointer at `r`. */
  function GenAt(a: seq<int>, typ: int, r: int): (g: Gen)
    requires Fits(a, typ, r)
    ensures GenOk(g)
  {
    if typ == 0 then Lcg(a[1])
    else Additive(SEPS[typ], Rotated(a[1..1 + DEGREES[typ]], Front(DEGREES[typ], SEPS[typ], r)))
  }

  ghost predicate Saved(a: seq<int>) {
    |a| > 0 && Fits(a, SavedType(a[0]), SavedRear(a[0]))
  }

  /** The generator that a saved state array holds. */
  function SavedGen(a: seq<int>): Gen
    requires Saved(a)
  {
    GenAt(a, SavedType(a[0]), SavedRear(a[0]))
  }

  /** Saving the word and reading it back gives the generator that was running. */
  lemma SaveAndRestore(a: seq<int>, typ: int, r: int)
    requires Fits(a, typ, r)
    ensures Saved(a[0 := Packed(typ, r)]) && SavedGen(a[0 := Packed(typ, r)]) == GenAt(a, typ, r)
  {
    var rr := if typ == 0 then 0 else r;
    PackedDecodes(typ, rr);
    var b := a[0 := Packed(typ, r)];
    assert b[1] == a[1];
    if typ > 0 {
      assert b[1..1 + DEGREES[typ]] == a[1..1 + DEGREES[typ]];
    }
  }

  // ------------------------------------------------------------------ seeding

  function SeedNext(x: int): int {
    (x * 1103515245 + 12345) % TWO_TO_32
  }

  /** The table that seeding fills in, from the seed on. */
  function SeedTable(x: int, n: nat): (s: seq<int>)
    requires n > 0
    ensures |s| == n
  {
    if n == 1 then [x] else var s := SeedTable(x, n - 1); s + [SeedNext(s[n - 2])]
  }

  /** The generator srandom sets up: the seeded table, ten times round. */
  function SeededGen(x: int, typ: nat): (g: Gen)
    requires typ < 5
    ensures GenOk(g)
  {
    if typ == 0 then Lcg(x)
    else AdvanceBy(Additive(SEPS[typ], Rotated(SeedTable(x, DEGREES[typ]), SEPS[typ])), 10 * DEGREES[typ])
  }

  /** Each word of the seeded table comes from the one before by the congruence that
      the generators of type 0 use, here modulo 2^32. */
  lemma {:induction false} SeedTableAt(x: int, n: nat, i: nat)
    requires i < n
    ensures SeedTable(x, n)[i] == if i == 0 then x else (1103515245 * SeedTable(x, n)[i - 1] + 12345) % 0x1_0000_0000
    decreases n
  {
    if i < n - 1 {
      hide SeedNext;
      SeedTableAt(x, n - 1, i);
    }
  }

  /** The numbers of type 0, each from the one before, modulo 2^31. */
  lemma {:induction false} CongruentialStream(x: int, n: nat, k: nat)
    requires k < n
    ensures Stream(Lcg(x), n)[k] ==
      (1103515245 * (if k == 0 then x else Stream(Lcg(x), n)[k - 1]) + 12345) % 0x8000_0000
    decreases n
  {
    if k < n - 1 {
      hide LcgNext;
      CongruentialStream(x, n - 1, k);
    } else {
      CongruentialState(x, k);
      if k > 0 {
        CongruentialState(x, k - 1);
      }
    }
  }

  lemma {:induction false} CongruentialState(x: int, k: nat)
    ensures var g := AdvanceBy(Lcg(x), k); g.Lcg? && (k > 0 ==> g.x == Output(AdvanceBy(Lcg(x), k - 1)))
  {
    hide LcgNext;
    if k > 0 {
      CongruentialState(x, k - 1);
    }
  }

  lemma {:induction false} AdvanceTwice(g: Gen, m: nat, k: nat)
    requires GenOk(g)
    ensures AdvanceBy(AdvanceBy(g, m), k) == AdvanceBy(g, m + k)
  {
    hide Advance;
    if k > 0 {
      AdvanceTwice(g, m, k - 1);
    }
  }

  lemma {:induction false} StreamAt(g: Gen, n: nat, k: nat)
    requires GenOk(g) && k < n
    ensures Stream(g, n)[k] == Output(AdvanceBy(g, k))
    decreases n
  {
    hide Output, AdvanceBy;
    if k < n - 1 {
      StreamAt(g, n - 1, k);
    }
  }

  lemma OutputIsTerm(w: seq<int>, sep: nat, j: nat)
    requires 0 < sep < |w|
    ensures Output(AdvanceBy(Additive(sep, w), j)) == Term(w, sep, |w| + j) / 2
  {
    hide Output, AdvanceBy, Term, Stream;
    StreamIsRecurrence(w, sep, j + 1, j);
    StreamAt(Additive(sep, w), j + 1, j);
  }

  /** From seed to output: the table of the seed, read round from the front pointer,
      begins a recurrence x[n] = x[n - deg] + x[n - sep], of which the first 10 * deg
      numbers are thrown away. */
  lemma SeededStream(x: int, t: nat, deg: nat, sep: nat, n: nat, k: nat)
    requires (t == 1 && deg == 7 && sep == 3) || (t == 2 && deg == 15 && sep == 1)
          || (t == 3 && deg == 31 && sep == 3) || (t == 4 && deg == 63 && sep == 1)
    requires k < n
    ensures var s := SeedTable(x, deg);
      Stream(SeededGen(x, t), n)[k] == Term(s[sep..] + s[..sep], sep, deg + 10 * deg + k) / 2
  {
    hide Output, AdvanceBy, Term, Stream, SeedTable;
    var w := Rotated(SeedTable(x, deg), sep);
    StreamAt(SeededGen(x, t), n, k);
    AdvanceTwice(Additive(sep, w), 10 * deg, k);
    OutputIsTerm(w, sep, 10 * deg + k);
  }

  /** The word is read as a signed number by the truncating operators of C. */
  lemma WordIsBoth(w: int)
    requires 0 <= w < TWO_TO_32
    ensures var v := if w < TWO_TO_32 / 2 then w else w - TWO_TO_32;
      v == 5 * SavedRear(w) + SavedType(w) && -5 < SavedType(w) < 5 && (v >= 0 ==> SavedType(w) >= 0) && (v < 0 ==> SavedType(w) <= 0)
  {
  }
}
