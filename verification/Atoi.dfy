/** atoi (libc/atoi.c), and that it reads back what printf wrote. */
module Atoi {
  import opened Basics
  import opened PrintfModel

  function Blanks(s: string): (n: nat)
    ensures n <= |s| && (n < |s| ==> s[n] != ' ' && s[n] != '\t')
    ensures forall i :: 0 <= i < n ==> s[i] == ' ' || s[i] == '\t'
  {
    if s != [] && (s[0] == ' ' || s[0] == '\t') then 1 + Blanks(s[1..]) else 0
  }

  /** The digits at the front of `s`. */
  function DigitRun(s: string): (r: string)
    ensures |r| <= |s| && r == s[..|r|] && (|r| < |s| ==> !IsDigit(s[|r|]))
    ensures forall i :: 0 <= i < |r| ==> IsDigit(r[i])
  {
    if s == [] || !IsDigit(s[0]) then [] else [s[0]] + DigitRun(s[1..])
  }

  predicate Minus(s: string) {
    s != [] && s[0] == '-'
  }

  /** The number at the front of a string, after blanks: the digits up to the
      first other character, reduced to 32 bits. */
  function Parse(s: string): int {
    var t := s[Blanks(s)..];
    Wrap(Minus(t), Value(DigitRun(if Minus(t) then t[1..] else t), 10))
  }

  /** A magnitude and a sign as a 32-bit signed integer. */
  function Wrap(neg: bool, m: int): int {
    Signed((if neg then -m else m) % TWO_TO_32)
  }

  /** The character at `i`, NUL behind the end. */
  function At(s: string, i: nat): char {
    if i < |s| then s[i] else '\0'
  }

  /** The accumulator wraps like the exact value does. */
  lemma WrapStep(v: nat, d: nat)
    ensures (v % TWO_TO_32 * 10 + d) % TWO_TO_32 == (v * 10 + d) % TWO_TO_32
  {
  }

  method Atoi(s: string) returns (r: int)
    ensures r == Parse(s)
  {
    hide Value;
    var i := 0;
    while At(s, i) == ' ' || At(s, i) == '\t'
      invariant i <= |s| && forall k :: 0 <= k < i ==> s[k] == ' ' || s[k] == '\t'
      decreases |s| - i
    {
      i := i + 1;
    }
    var neg := false;
    assert i == Blanks(s);
    if At(s, i) == '-' {
      neg := true;
      i := i + 1;
    }
    ghost var t := s[i..];
    assert Minus(s[Blanks(s)..]) ==> t == s[Blanks(s)..][1..];
    var val := Digits10(s, i);
    WrapTwice(neg, Value(DigitRun(t), 10));
    if neg {
      return Signed((-val) % TWO_TO_32);
    }
    return Signed(val);
  }

  lemma WrapTwice(neg: bool, v: nat)
    ensures Wrap(neg, v % TWO_TO_32) == Wrap(neg, v)
  {
  }

  /** The digit loop. */
  method Digits10(s: string, from: nat) returns (val: int)
    requires from <= |s|
    ensures 0 <= val < TWO_TO_32 && val == Value(DigitRun(s[from..]), 10) % TWO_TO_32
  {
    hide Value;
    var i := from;
    val := 0;
    assert Value(s[from..i], 10) == 0 by { ValueNone(s, from); }
    while At(s, i) != '\0'
      invariant from <= i <= |s| && 0 <= val < TWO_TO_32
      invariant forall k :: from <= k < i ==> IsDigit(s[k])
      invariant val == Value(s[from..i], 10) % TWO_TO_32
      decreases |s| - i
    {
      if !IsDigit(s[i]) {
        break;
      }
      ReadOneMore(s, from, i);
      WrapStep(Value(s[from..i], 10), DigitValue(s[i]));
      val := (val * 10 + DigitValue(s[i])) % TWO_TO_32;
      i := i + 1;
    }
    RunIs(s, from, i);
  }

  lemma ValueNone(s: string, from: nat)
    requires from <= |s|
    ensures Value(s[from..from], 10) == 0
  {
  }

  lemma ReadOneMore(s: string, from: nat, i: nat)
    requires from <= i < |s|
    ensures Value(s[from..i + 1], 10) == Value(s[from..i], 10) * 10 + DigitValue(s[i])
  {
    assert s[from..i + 1][..i - from] == s[from..i];
  }

  lemma RunIs(s: string, from: nat, i: nat)
    requires from <= i <= |s| && (i < |s| ==> !IsDigit(s[i]))
    requires forall k :: from <= k < i ==> IsDigit(s[k])
    ensures DigitRun(s[from..]) == s[from..i]
  {
    var r := DigitRun(s[from..]);
    if |r| < i - from {
      assert false;
    } else if |r| > i - from {
      assert false;
    }
  }

  // --------------------------------------------------------------- round trip

  lemma {:induction false} BlanksOf(n: nat, s: string)
    requires s == [] || (s[0] != ' ' && s[0] != '\t')
    ensures Blanks(Repeat(' ', n) + s) == n
  {
    if n > 0 {
      BlanksOf(n - 1, s);
      assert (Repeat(' ', n) + s)[1..] == Repeat(' ', n - 1) + s;
    }
  }

  lemma DigitRunOf(d: string, tail: string)
    requires forall i :: 0 <= i < |d| ==> IsDigit(d[i])
    requires tail == [] || !IsDigit(tail[0])
    ensures DigitRun(d + tail) == d
  {
    RunIs(d + tail, 0, |d|);
    assert (d + tail)[0..] == d + tail;
  }

  function Sign(neg: bool): string {
    if neg then "-" else ""
  }

  /** Blanks, a sign, digits and something else: the digits are what is read. */
  lemma ParseOf(n: nat, neg: bool, d: string, tail: string)
    requires d != [] && forall i :: 0 <= i < |d| ==> IsDigit(d[i])
    requires tail == [] || !IsDigit(tail[0])
    ensures Parse(Repeat(' ', n) + Sign(neg) + d + tail) == Wrap(neg, Value(d, 10))
  {
    hide Value, Repeat, Blanks, DigitRun, Wrap, Sign, Minus;
    assert IsDigit(d[0]);
    var t := Sign(neg) + d + tail;
    SignedText(neg, d, tail);
    BlanksOf(n, t);
    DigitRunOf(d, tail);
    Split(Repeat(' ', n), Sign(neg), d, tail);
  }

  lemma Split(a: string, b: string, c: string, d: string)
    ensures a + b + c + d == a + (b + c + d) && (a + (b + c + d))[|a|..] == b + c + d
  {
  }

  lemma SignedText(neg: bool, d: string, tail: string)
    requires d != [] && IsDigit(d[0])
    ensures var t := Sign(neg) + d + tail;
      t != [] && t[0] != ' ' && t[0] != '\t' && (Minus(t) <==> neg) && (if neg then t[1..] else t) == d + tail
  {
    if !neg {
      assert Sign(neg) + d == d;
    }
  }

  lemma {:induction false} LeadingZeros(n: nat, d: string)
    ensures Value(Repeat('0', n) + d, 10) == Value(d, 10)
  {
    if d != [] {
      LeadingZeros(n, d[..|d| - 1]);
      assert (Repeat('0', n) + d)[..n + |d| - 1] == Repeat('0', n) + d[..|d| - 1];
    } else if n > 0 {
      LeadingZeros(n - 1, d);
      assert (Repeat('0', n) + d)[..n - 1] == Repeat('0', n - 1) + d;
    }
  }

  lemma {:induction false} TrailingZeros(d: string, n: nat)
    ensures Value(d + Repeat('0', n), 10) == Value(d, 10) * Power(10, n)
  {
    if n == 0 {
      assert d + Repeat('0', n) == d;
    } else {
      TrailingZeros(d, n - 1);
      OneMoreZero(d + Repeat('0', n - 1));
      hide Value, Power;
      assert d + Repeat('0', n) == d + Repeat('0', n - 1) + ['0'];
      TenTimes(Value(d, 10), n);
    }
  }

  lemma OneMoreZero(d: string)
    ensures Value(d + ['0'], 10) == Value(d, 10) * 10
  {
    assert (d + ['0'])[..|d|] == d;
  }

  lemma TenTimes(v: int, n: nat)
    requires n > 0
    ensures v * Power(10, n - 1) * 10 == v * Power(10, n)
  {
    Regrouped(v, 10, Power(10, n - 1));
  }

  lemma Regrouped(v: int, b: int, p: int)
    ensures v * p * b == v * (b * p)
  {
  }

  lemma WordOf(v: int)
    requires -TWO_TO_32 / 2 <= v < TWO_TO_32 / 2
    ensures Signed(v % TWO_TO_32) == v
  {
  }

  lemma NoPad(c: char)
    ensures Repeat(c, 0) == ""
  {
  }

  /** Zeros on the right multiply; only zero survives that. */
  predicate ZerosOnRight(mods: string, v: int) {
    '-' in mods && ZeroFill(mods) && Width(mods) > |DecimalText(v)|
  }

  function DecimalText(v: int): string {
    Sign(v < 0) + Digits(if v < 0 then -v else v, 10)
  }

  /** The field that %d with any modifiers prints for a signed number. */
  lemma DecimalField(mods: string, v: int)
    requires -TWO_TO_32 / 2 <= v < TWO_TO_32 / 2
    ensures FieldText(mods, 'd', [Num(v)]) == Field(Width(mods), '-' in mods, if ZeroFill(mods) then '0' else ' ',
              Sign(v < 0), Digits(if v < 0 then -v else v, 10))
  {
    hide Field, Width, ZeroFill, Digits;
    WordOf(v);
    assert WordArg([Num(v)]) == v % TWO_TO_32;
  }

  lemma SameMagnitude(v: int, k: nat)
    requires -TWO_TO_32 / 2 <= v < TWO_TO_32 / 2 && k == if v < 0 then -v else v
    ensures Wrap(v < 0, k) == v
  {
    WordOf(v);
  }

  /** What is read back in each of the three layouts. */
  lemma ReadField(width: nat, left: bool, zero: bool, v: int)
    requires -TWO_TO_32 / 2 <= v < TWO_TO_32 / 2
    ensures var k := if v < 0 then -v else v; var d := Digits(k, 10);
      var pre := Sign(v < 0);
      var pad := if width > |pre| + |d| then width - (|pre| + |d|) else 0;
      var m := if left && zero then k * Power(10, pad) else k;
      Parse(Field(width, left, if zero then '0' else ' ', pre, d)) == Wrap(v < 0, m)
  {
    hide Value, Digits, Parse, Wrap, Power, Repeat;
    var k := if v < 0 then -v else v;
    var d := Digits(k, 10);
    var pre := Sign(v < 0);
    var pad := if width > |pre| + |d| then width - (|pre| + |d|) else 0;
    DigitsValue(k, 10);
    DigitsAre(k, 10);
    NoPad(' ');
    var s := Field(width, left, if zero then '0' else ' ', pre, d);
    if left && zero {
      TrailingZeros(d, pad);
      ParseOf(0, v < 0, d + Repeat('0', pad), "");
      assert s == Repeat(' ', 0) + pre + (d + Repeat('0', pad)) + "";
    } else if left {
      ParseOf(0, v < 0, d, Repeat(' ', pad));
      assert s == Repeat(' ', 0) + pre + d + Repeat(' ', pad);
    } else if zero {
      LeadingZeros(pad, d);
      ParseOf(0, v < 0, Repeat('0', pad) + d, "");
      assert s == Repeat(' ', 0) + pre + (Repeat('0', pad) + d) + "";
    } else {
      ParseOf(pad, v < 0, d, "");
      assert s == Repeat(' ', pad) + pre + d + "";
    }
  }

  // ----------------------------------------------- multiplying by a power of ten

  function Times(x: int, y: int): int {
    x * y
  }

  lemma {:induction false} OddCancels(v: int, h: int, k: nat, q: int) returns (r: int)
    requires Times(v, 2 * h + 1) == Times(q, Power(2, k))
    ensures v == Times(r, Power(2, k))
    decreases k
  {
    if k == 0 {
      r := v;
    } else {
      hide Times;
      var p := Power(2, k - 1);
      EvenFactor(v, h, q, p);
      r := OddCancels(v / 2, h, k - 1, q);
      Doubled(r, p);
    }
  }

  lemma Doubled(r: int, p: int)
    ensures 2 * Times(r, p) == Times(r, 2 * p)
  {
  }

  lemma EvenFactor(v: int, h: int, q: int, p: int)
    requires Times(v, 2 * h + 1) == Times(q, 2 * p)
    ensures v == 2 * (v / 2) && Times(v / 2, 2 * h + 1) == Times(q, p)
  {
    Doubled(q, p);
    Halve(v, h, Times(q, p));
  }

  lemma Halve(v: int, h: int, x: int)
    requires v * (2 * h + 1) == 2 * x
    ensures v == 2 * (v / 2) && v / 2 * (2 * h + 1) == x
  {
    Spread(v, h);
    var u := v / 2;
    assert v == 2 * u;
    Spread(u, h);
    Regrouped(h, 2, u);
  }

  lemma Spread(v: int, h: int)
    ensures v * (2 * h + 1) == 2 * (v * h) + v
  {
  }

  lemma TwoToThe32()
    ensures Power(2, 32) == TWO_TO_32
  {
    assert Power(2, 4) == 16;
    assert Power(2, 8) == 16 * Power(2, 4);
    assert Power(2, 12) == 16 * Power(2, 8);
    assert Power(2, 16) == 16 * Power(2, 12);
    assert Power(2, 20) == 16 * Power(2, 16);
    assert Power(2, 24) == 16 * Power(2, 20);
    assert Power(2, 28) == 16 * Power(2, 24);
    assert Power(2, 32) == 16 * Power(2, 28);
  }

  lemma {:induction false} PowerOfTenEven(n: nat) returns (h: nat)
    requires n > 0
    ensures Power(10, n) == 2 * h && h > 0
  {
    h := 5 * Power(10, n - 1);
    PowerPositive(10, n - 1);
  }

  lemma {:induction false} PowerPositive(b: nat, n: nat)
    requires b > 0
    ensures Power(b, n) > 0
  {
    if n > 0 {
      PowerPositive(b, n - 1);
    }
  }

  /** A 32-bit number times a power of ten is itself modulo 2^32 only for zero. */
  lemma TenfoldDiffers(v: int, n: nat)
    requires -TWO_TO_32 / 2 <= v < TWO_TO_32 / 2 && n > 0
    ensures Signed((v * Power(10, n)) % TWO_TO_32) == v <==> v == 0
  {
    var p := Power(10, n);
    if Signed((v * p) % TWO_TO_32) == v {
      var h := PowerOfTenEven(n);
      var q := (v * p - v) / TWO_TO_32;
      WordOf(v);
      SameResidue(v * p, v, q);
      Regroup(v, h, p);
      TwoToThe32();
      var r := OddCancels(v, h - 1, 32, q);
      OnlyZero(v, r);
    } else {
      assert v != 0;
    }
  }

  lemma OnlyZero(v: int, r: int)
    requires -TWO_TO_32 / 2 <= v < TWO_TO_32 / 2 && v == r * TWO_TO_32
    ensures v == 0
  {
  }

  lemma SameResidue(a: int, v: int, q: int)
    requires -TWO_TO_32 / 2 <= v < TWO_TO_32 / 2 && Signed(a % TWO_TO_32) == v && q == (a - v) / TWO_TO_32
    ensures a - v == q * TWO_TO_32
  {
  }

  lemma Regroup(v: int, h: int, p: int)
    requires p == 2 * h
    ensures v * p - v == v * (2 * (h - 1) + 1)
  {
  }

  /** For every signed number and all modifiers of %d, reading the field back
      gives the number, except where zeros pad a nonzero number on the right. */
  lemma RoundTrip(mods: string, v: int)
    requires AllMods(mods) && -TWO_TO_32 / 2 <= v < TWO_TO_32 / 2
    ensures Parse(Meaning(['%'] + mods + ['d'], [Num(v)])) == v <==> v == 0 || !ZerosOnRight(mods, v)
  {
    hide Parse, Field, Digits, Value, Width, ZeroFill, FieldText, Power;
    MeaningOfOne(mods, 'd', [Num(v)]);
    DecimalField(mods, v);
    ReadField(Width(mods), '-' in mods, ZeroFill(mods), v);
    var k := if v < 0 then -v else v;
    SameMagnitude(v, k);
    if '-' in mods && ZeroFill(mods) {
      if Width(mods) > |DecimalText(v)| {
        var n := Width(mods) - |DecimalText(v)|;
        TenfoldDiffers(v, n);
        Negated(v, k, Power(10, n));
      } else {
        PowerZero(10, k);
      }
    }
  }

  lemma PowerZero(b: nat, k: int)
    ensures k * Power(b, 0) == k
  {
  }

  lemma Negated(v: int, k: int, p: int)
    requires k == if v < 0 then -v else v
    ensures Wrap(v < 0, k * p) == Signed((v * p) % TWO_TO_32)
  {
    hide Signed;
    MinusTimes(k, p);
  }

  lemma MinusTimes(k: int, p: int)
    ensures (-k) * p == -(k * p)
  {
  }

  lemma MeaningOfOne(mods: string, t: char, args: seq<Arg>)
    requires AllMods(mods) && !IsModifier(t)
    ensures Meaning(['%'] + mods + [t], args) == FieldText(mods, t, args)
  {
    hide FieldText;
    var fmt := ['%'] + mods + [t];
    assert fmt[1..] == mods + [t];
    ModsOf(mods, [t]);
    assert fmt[1..|mods| + 1] == mods;
    assert fmt[|mods| + 2..] == [];
  }

  /** %d, %wd, %0wd and %-wd, for every width written in decimal. */
  lemma RoundTripWidths(w: nat, v: int)
    requires -TWO_TO_32 / 2 <= v < TWO_TO_32 / 2
    ensures Parse(Meaning("%d", [Num(v)])) == v
    ensures Parse(Meaning("%" + Digits(w, 10) + "d", [Num(v)])) == v
    ensures Parse(Meaning("%0" + Digits(w, 10) + "d", [Num(v)])) == v
    ensures Parse(Meaning("%-" + Digits(w, 10) + "d", [Num(v)])) == v
  {
    hide Parse, Meaning, Digits, FieldText;
    var d := Digits(w, 10);
    DigitsAre(w, 10);
    RoundTrip("", v);
    assert "%d" == ['%'] + "" + ['d'];
    RoundTrip(d, v);
    assert "%" + d + "d" == ['%'] + d + ['d'];
    RoundTrip("0" + d, v);
    assert "%0" + d + "d" == ['%'] + ("0" + d) + ['d'];
    RoundTrip("-" + d, v);
    assert "%-" + d + "d" == ['%'] + ("-" + d) + ['d'];
    LeftField(w, v);
  }

  /** A width in decimal is read as that width, and begins with a zero only if it is 0. */
  lemma LeftField(w: nat, v: int)
    ensures Width("-" + Digits(w, 10)) == w && !ZerosOnRight("-" + Digits(w, 10), v)
  {
    hide Value;
    var d := Digits(w, 10);
    DigitsAre(w, 10);
    DigitsValue(w, 10);
    OnlyDigits("-", d);
    if w > 0 {
      FirstDigit(w);
    }
    assert DigitsOnly("-" + d) == d;
    assert |DecimalText(v)| > 0;
  }

  lemma {:induction false} FirstDigit(w: nat)
    requires w > 0
    ensures Digits(w, 10)[0] != '0'
  {
    if w >= 10 {
      FirstDigit(w / 10);
    } else {
      assert DigitValue(Digit(w)) == w;
    }
  }

  lemma {:induction false} OnlyDigits(pre: string, d: string)
    requires forall i :: 0 <= i < |d| ==> IsDigit(d[i])
    ensures DigitsOnly(pre + d) == DigitsOnly(pre) + d
  {
    if d == [] {
      assert pre + d == pre;
    } else {
      OnlyDigits(pre, d[..|d| - 1]);
      assert (pre + d)[..|pre + d| - 1] == pre + d[..|d| - 1];
    }
  }
}
