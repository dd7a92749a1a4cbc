/** The printf engine of libc/__printf.c on values: the character-driven state
    machine, and what a format string means when read as a grammar. */
module PrintfModel {
  import opened Basics

  /** An argument: a word for the numeric conversions and %c, a string or a null
      pointer for %s. */
  datatype Arg = Num(n: int) | Text(s: string) | Null

  datatype Size = INTSZ | LONGSZ

  /** What is known of the %-field being read. */
  datatype Flags = Flags(
    inPct: bool, size: Size, num: int, neg: bool, spacing: nat, rightspc: bool, fillchar: char,
    base: nat, baseprefix: bool, altformat: bool)

  const IDLE: Flags := Flags(false, INTSZ, 0, false, 0, false, ' ', 0, false, false)

  /** The state of a session; `out` is everything sent so far. */
  datatype PF = PF(args: seq<Arg>, out: string, f: Flags)

  // ------------------------------------------------------------------ strings

  /** A C string: what comes before the first NUL. */
  function CStr(s: string): (r: string)
    ensures |r| <= |s| && forall i :: 0 <= i < |r| ==> r[i] != '\0'
  {
    if s == [] || s[0] == '\0' then [] else [s[0]] + CStr(s[1..])
  }

  lemma {:induction false} CStrAt(s: string, k: nat)
    requires k < |s| && s[k] == '\0' && forall i :: 0 <= i < k ==> s[i] != '\0'
    ensures CStr(s) == s[..k]
  {
    if k > 0 {
      CStrAt(s[1..], k - 1);
    }
  }

  function Repeat(c: char, n: nat): (r: string)
    ensures |r| == n && forall i :: 0 <= i < n ==> r[i] == c
  {
    if n == 0 then [] else Repeat(c, n - 1) + [c]
  }

  // ------------------------------------------------------------------- digits

  predicate Base(b: nat) {
    b == 8 || b == 10 || b == 16
  }

  function Digit(d: nat): (c: char)
    requires d < 16
    ensures c != '\0' && DigitValue(c) == d && (d < 10 ==> IsDigit(c))
  {
    "0123456789abcdef"[d]
  }

  predicate IsDigit(c: char) {
    '0' <= c <= '9'
  }

  function DigitValue(c: char): nat {
    if '0' <= c <= '9' then (c - '0') as nat
    else if 'a' <= c <= 'f' then (c - 'a') as nat + 10
    else 0
  }

  lemma DivLess(n: nat, b: nat)
    requires Base(b) && n >= b
    ensures 0 < n / b < n && n % b < b && n == n / b * b + n % b
  {
  }

  /** `n` written in base `b`. */
  function Digits(n: nat, b: nat): (s: string)
    requires Base(b)
    ensures |s| > 0
  {
    if n < b then [Digit(n)] else DivLess(n, b); Digits(n / b, b) + [Digit(n % b)]
  }

  /** The number a digit string stands for. */
  function Value(s: string, b: nat): nat {
    if s == [] then 0 else Value(s[..|s| - 1], b) * b + DigitValue(s[|s| - 1])
  }

  /** The digits of a number stand for it. */
  lemma {:induction false} DigitsValue(n: nat, b: nat)
    requires Base(b)
    ensures Value(Digits(n, b), b) == n
  {
    if n < b {
      assert Digits(n, b)[..0] == [];
    } else {
      DivLess(n, b);
      DigitsValue(n / b, b);
      assert Digits(n, b)[..|Digits(n, b)| - 1] == Digits(n / b, b);
    }
  }

  lemma {:induction false} DigitsAre(n: nat, b: nat)
    requires Base(b)
    ensures forall i :: 0 <= i < |Digits(n, b)| ==> Digits(n, b)[i] != '\0' && (b <= 10 ==> IsDigit(Digits(n, b)[i]))
  {
    hide Digit;
    if n >= b {
      DivLess(n, b);
      DigitsAre(n / b, b);
    }
  }

  function Power(b: nat, k: nat): nat {
    if k == 0 then 1 else b * Power(b, k - 1)
  }

  lemma DivBelow(n: nat, b: nat, m: nat)
    requires Base(b) && n < b * m
    ensures n / b < m
  {
  }

  lemma {:induction false} DigitsLength(n: nat, b: nat, k: nat)
    requires Base(b) && k > 0 && n < Power(b, k)
    ensures |Digits(n, b)| <= k
  {
    if n >= b {
      DivLess(n, b);
      assert k > 1;
      DivBelow(n, b, Power(b, k - 1));
      DigitsLength(n / b, b, k - 1);
    }
  }

  /** Every 32-bit number has at most 11 digits in each of the three bases. */
  lemma ElevenDigits(n: nat, b: nat)
    requires Base(b) && n < TWO_TO_32
    ensures |Digits(n, b)| <= 11
  {
    assert Power(b, 3) == b * b * b;
    assert Power(b, 5) == b * b * Power(b, 3);
    assert Power(b, 7) == b * b * Power(b, 5);
    assert Power(b, 9) == b * b * Power(b, 7);
    assert Power(b, 11) == b * b * Power(b, 9);
    DigitsLength(n, b, 11);
  }

  lemma {:induction false} DigitsAtLeast(n: nat, b: nat, k: nat)
    requires Base(b) && n >= Power(b, k)
    ensures |Digits(n, b)| > k
  {
    if k > 0 {
      PowerGrows(b, k - 1);
      assert n >= b;
      DivLess(n, b);
      DivAtLeast(n, b, Power(b, k - 1));
      DigitsAtLeast(n / b, b, k - 1);
    }
  }

  lemma {:induction false} PowerGrows(b: nat, k: nat)
    requires Base(b)
    ensures Power(b, k) >= 1 && Power(b, k + 1) >= b
  {
    if k > 0 {
      PowerGrows(b, k - 1);
    }
  }

  lemma DivAtLeast(n: nat, b: nat, m: nat)
    requires Base(b) && n >= b * m
    ensures n / b >= m
  {
  }

  lemma TenthPowers()
    ensures Power(8, 10) == 0x4000_0000 && Power(10, 10) > TWO_TO_32 && Power(16, 10) > TWO_TO_32
  {
    assert Power(8, 4) == 4096 && Power(8, 8) == 4096 * Power(8, 4);
    assert Power(10, 4) == 10000 && Power(10, 8) == 10000 * Power(10, 4);
    assert Power(16, 4) == 65536 && Power(16, 8) == 65536 * Power(16, 4);
  }

  /** All 11 are needed exactly in octal from 2^30 on. */
  lemma OctalFillsBuffer(n: nat, b: nat)
    requires Base(b) && n < TWO_TO_32
    ensures |Digits(n, b)| == 11 <==> b == 8 && n >= 0x4000_0000
  {
    ElevenDigits(n, b);
    TenthPowers();
    hide Digits, Power;
    if n >= Power(b, 10) {
      DigitsAtLeast(n, b, 10);
    } else {
      DigitsLength(n, b, 10);
    }
  }

  // ------------------------------------------------------------ state machine

  function Print(p: PF, txt: string): PF {
    p.(out := p.out + txt)
  }

  function Fresh(args: seq<Arg>, out: string): PF {
    PF(args, out, IDLE)
  }

  function EndField(p: PF): PF {
    Fresh(p.args, p.out)
  }

  predicate IsModifier(c: char) {
    c == '#' || c == '-' || c == 'q' || c == 'l' || IsDigit(c)
  }

  function Modify(f: Flags, ch: char): Flags
    requires IsModifier(ch)
  {
    if ch == '#' then f.(altformat := true)
    else if ch == '-' then f.(rightspc := true)
    else if ch == 'l' || ch == 'q' then f.(size := LONGSZ)
    else if ch == '0' then
      if f.spacing > 0 then f.(spacing := f.spacing * 10) else f.(fillchar := '0')
    else f.(spacing := f.spacing * 10 + DigitValue(ch))
  }

  function Rest(args: seq<Arg>): seq<Arg> {
    if args == [] then [] else args[1..]
  }

  /** The next argument fetched as a word. */
  function WordArg(args: seq<Arg>): (w: int)
    ensures 0 <= w < TWO_TO_32
  {
    if args != [] && args[0].Num? then args[0].n % TWO_TO_32 else 0
  }

  /** The next argument fetched as a string. */
  function TextArg(args: seq<Arg>): string {
    if args != [] && args[0].Text? then CStr(args[0].s) else "(null)"
  }

  /** A word read as a signed integer. */
  function Signed(w: int): int {
    if w < TWO_TO_32 / 2 then w else w - TWO_TO_32
  }

  /** The argument `w` as the number to print: its magnitude and, for %d, its sign. */
  function GetNum(f: Flags, ch: char, w: int): Flags {
    if ch == 'd' && Signed(w) < 0 then f.(num := -Signed(w) % TWO_TO_32, neg := true) else f.(num := w)
  }

  predicate IsNumeric(ch: char) {
    ch == 'd' || ch == 'o' || ch == 'u' || ch == 'p' || ch == 'x'
  }

  function BaseOf(ch: char): (b: nat)
    ensures Base(b)
  {
    if ch == 'x' || ch == 'p' then 16 else if ch == 'o' then 8 else 10
  }

  function SetBase(f: Flags, ch: char): Flags {
    f.(base := BaseOf(ch), baseprefix := f.baseprefix || f.altformat || ch == 'p')
  }

  /** A field of at least `width` characters: the padding is on the right when
      `left`, before the prefixes when it is blank, after them when it is zeros. */
  function Field(width: nat, left: bool, fill: char, prefix: string, stuff: string): string {
    var n := |prefix| + |stuff|;
    var pad := Repeat(fill, if width > n then width - n else 0);
    if left then prefix + stuff + pad
    else if fill == '0' then prefix + pad + stuff
    else pad + prefix + stuff
  }

  function PrintStuff(p: PF, prefix: string, stuff: string): PF {
    Print(p, Field(p.f.spacing, p.f.rightspc, p.f.fillchar, prefix, stuff))
  }

  function Prefix(neg: bool, baseprefix: bool, base: nat): string {
    (if neg then "-" else "") + if !baseprefix then "" else if base == 16 then "0x" else if base == 8 then "0" else ""
  }

  function PrintNum(p: PF): PF
    requires Base(p.f.base) && p.f.num >= 0
  {
    PrintStuff(p, Prefix(p.f.neg, p.f.baseprefix, p.f.base), Digits(p.f.num, p.f.base))
  }

  /** What %c makes of a word: one character, or nothing for a NUL. */
  function CharText(w: int): string
    requires 0 <= w
  {
    CStr([(w % 256) as char])
  }

  /** The next argument fetched as a number. */
  function NumField(p: PF, ch: char): PF {
    PF(Rest(p.args), p.out, SetBase(GetNum(p.f, ch, WordArg(p.args)), ch))
  }

  /** One character of the format string. */
  function Send(p: PF, ch: char): PF
    requires ch != '\0'
  {
    if !p.f.inPct && ch != '%' then Print(p, [ch])
    else if !p.f.inPct then p.(f := p.f.(inPct := true))
    else if IsModifier(ch) then p.(f := Modify(p.f, ch))
    else if IsNumeric(ch) then EndField(PrintNum(NumField(p, ch)))
    else if ch == 's' then EndField(PrintStuff(p.(args := Rest(p.args)), "", TextArg(p.args)))
    else if ch == 'c' then EndField(PrintStuff(p.(args := Rest(p.args)), "", CharText(WordArg(p.args))))
    else EndField(PrintStuff(p, "", [ch]))
  }

  predicate NoNul(s: string) {
    forall i :: 0 <= i < |s| ==> s[i] != '\0'
  }

  function Run(p: PF, fmt: string): PF
    requires NoNul(fmt)
  {
    if fmt == [] then p else Send(Run(p, fmt[..|fmt| - 1]), fmt[|fmt| - 1])
  }

  // ------------------------------------------------------------------ grammar

  /** The modifiers at the front of `s`. */
  function Mods(s: string): (r: string)
    ensures |r| <= |s| && r == s[..|r|]
    ensures forall i :: 0 <= i < |r| ==> IsModifier(r[i])
    ensures |r| < |s| ==> !IsModifier(s[|r|])
  {
    if s == [] || !IsModifier(s[0]) then [] else [s[0]] + Mods(s[1..])
  }

  lemma {:induction false} ModsOf(mods: string, rest: string)
    requires AllMods(mods) && (rest == [] || !IsModifier(rest[0]))
    ensures Mods(mods + rest) == mods
  {
    if mods == [] {
      assert mods + rest == rest;
    } else {
      ModsOf(mods[1..], rest);
      assert (mods + rest)[1..] == mods[1..] + rest;
    }
  }

  function DigitsOnly(mods: string): string {
    if mods == [] then []
    else
      var r := DigitsOnly(mods[..|mods| - 1]);
      if IsDigit(mods[|mods| - 1]) then r + [mods[|mods| - 1]] else r
  }

  /** The width a field asks for: its digits read as one number. */
  function Width(mods: string): nat {
    Value(DigitsOnly(mods), 10)
  }

  /** The first digit of the modifiers is a zero. */
  predicate ZeroFill(mods: string) {
    DigitsOnly(mods) != [] && DigitsOnly(mods)[0] == '0'
  }

  function TakesArg(t: char): bool {
    IsNumeric(t) || t == 's' || t == 'c'
  }

  function RestFor(t: char, args: seq<Arg>): seq<Arg> {
    if TakesArg(t) then Rest(args) else args
  }

  function FieldPrefix(alt: bool, t: char, args: seq<Arg>): string {
    if t == 'd' && Signed(WordArg(args)) < 0 then "-"
    else if t == 'p' || (t == 'x' && alt) then "0x"
    else if t == 'o' && alt then "0"
    else ""
  }

  function FieldBody(t: char, args: seq<Arg>): string {
    var w := WordArg(args);
    match t
    case 'd' => Digits(if Signed(w) < 0 then -Signed(w) else w, 10)
    case 'u' => Digits(w, 10)
    case 'x' => Digits(w, 16)
    case 'p' => Digits(w, 16)
    case 'o' => Digits(w, 8)
    case 's' => TextArg(args)
    case 'c' => CharText(w)
    case _ => [t]
  }

  /** The text of one field with modifiers `mods` and type character `t`. */
  function FieldText(mods: string, t: char, args: seq<Arg>): string {
    Field(Width(mods), '-' in mods, if ZeroFill(mods) then '0' else ' ',
          FieldPrefix('#' in mods, t, args), FieldBody(t, args))
  }

  /** The output of a format string: its literal characters and its fields, each
      with its own argument. A field that the string does not finish prints nothing. */
  function Meaning(fmt: string, args: seq<Arg>): string
    decreases |fmt|
  {
    if fmt == [] then ""
    else if fmt[0] != '%' then [fmt[0]] + Meaning(fmt[1..], args)
    else
      var k := |Mods(fmt[1..])|;
      if k + 1 == |fmt| then ""
      else FieldText(fmt[1..k + 1], fmt[k + 1], args) + Meaning(fmt[k + 2..], RestFor(fmt[k + 1], args))
  }

  // ----------------------------------------------- the machine has the meaning

  lemma {:induction false} RunConcat(p: PF, a: string, b: string)
    requires NoNul(a) && NoNul(b)
    ensures NoNul(a + b) && Run(p, a + b) == Run(Run(p, a), b)
  {
    hide Send;
    if b == [] {
      assert a + b == a;
    } else {
      var n := |b| - 1;
      RunConcat(p, a, b[..n]);
      assert (a + b)[..|a + b| - 1] == a + b[..n];
    }
  }

  lemma RunOne(p: PF, c: char)
    requires c != '\0'
    ensures Run(p, [c]) == Send(p, c)
  {
    hide Send;
    assert [c][..0] == [];
  }

  /** The state inside a field after the modifiers `mods`. */
  function FlagsAfter(mods: string): Flags {
    IDLE.(
      inPct := true,
      size := if 'l' in mods || 'q' in mods then LONGSZ else INTSZ,
      spacing := Width(mods), rightspc := '-' in mods,
      fillchar := if ZeroFill(mods) then '0' else ' ', altformat := '#' in mods)
  }

  predicate AllMods(mods: string) {
    forall i :: 0 <= i < |mods| ==> IsModifier(mods[i])
  }

  lemma {:induction false} ZeroValue(d: string)
    requires Value(d, 10) == 0 && forall i :: 0 <= i < |d| ==> IsDigit(d[i])
    ensures forall i :: 0 <= i < |d| ==> d[i] == '0'
  {
    if d != [] {
      ZeroValue(d[..|d| - 1]);
    }
  }

  lemma {:induction false} DigitsOnlyAre(mods: string)
    ensures forall i :: 0 <= i < |DigitsOnly(mods)| ==> IsDigit(DigitsOnly(mods)[i])
  {
    if mods != [] {
      DigitsOnlyAre(mods[..|mods| - 1]);
    }
  }

  lemma DigitsOnlySnoc(mods: string, c: char)
    ensures DigitsOnly(mods + [c]) == if IsDigit(c) then DigitsOnly(mods) + [c] else DigitsOnly(mods)
  {
    assert (mods + [c])[..|mods|] == mods;
  }

  lemma ValueSnoc(d: string, c: char, b: nat)
    ensures Value(d + [c], b) == Value(d, b) * b + DigitValue(c)
  {
    hide DigitValue;
    assert (d + [c])[..|d|] == d;
  }

  lemma WidthSnoc(mods: string, c: char)
    ensures Width(mods + [c]) == if IsDigit(c) then Width(mods) * 10 + DigitValue(c) else Width(mods)
  {
    DigitsOnlySnoc(mods, c);
    hide DigitsOnly, Value, DigitValue, IsDigit;
    ValueSnoc(DigitsOnly(mods), c, 10);
  }

  /** A width of zero has no digits, or begins with one that is a zero. */
  lemma NoWidth(mods: string)
    requires Width(mods) == 0
    ensures DigitsOnly(mods) == [] || ZeroFill(mods)
  {
    DigitsOnlyAre(mods);
    hide DigitsOnly, Value;
    ZeroValue(DigitsOnly(mods));
  }

  /** Only a zero before any other digit asks for zeros. */
  lemma ZeroFillSnoc(mods: string, c: char)
    ensures ZeroFill(mods + [c]) == (ZeroFill(mods) || (c == '0' && Width(mods) == 0))
  {
    DigitsOnlySnoc(mods, c);
    if Width(mods) == 0 {
      NoWidth(mods);
    } else {
      assert DigitsOnly(mods) != [];
    }
    hide DigitsOnly, Value;
  }

  lemma InSnoc(mods: string, c: char, x: char)
    ensures x in mods + [c] <==> x in mods || x == c
  {
  }

  lemma OtherDigit(c: char)
    requires IsDigit(c)
    ensures DigitValue(c) == 0 <==> c == '0'
    ensures c != '#' && c != '-' && c != 'l' && c != 'q'
  {
  }

  /** One more modifier. */
  lemma ModifyMeaning(mods: string, c: char)
    requires AllMods(mods) && IsModifier(c)
    ensures Modify(FlagsAfter(mods), c) == FlagsAfter(mods + [c])
  {
    InSnoc(mods, c, '#');
    InSnoc(mods, c, '-');
    InSnoc(mods, c, 'l');
    InSnoc(mods, c, 'q');
    WidthSnoc(mods, c);
    ZeroFillSnoc(mods, c);
    if IsDigit(c) {
      OtherDigit(c);
    }
    hide Width, ZeroFill, DigitValue;
  }

  /** What the machine knows after the modifiers is what the grammar reads off them. */
  lemma {:induction false} ModsMeaning(args: seq<Arg>, out: string, mods: string)
    requires AllMods(mods)
    ensures NoNul(mods) && Run(PF(args, out, FlagsAfter([])), mods) == PF(args, out, FlagsAfter(mods))
  {
    hide Modify, FlagsAfter;
    if mods != [] {
      var n := |mods| - 1;
      ModsMeaning(args, out, mods[..n]);
      ModifyMeaning(mods[..n], mods[n]);
      assert mods[..n] + [mods[n]] == mods;
      assert FlagsAfter(mods[..n]).inPct by { FlagsOpen(mods[..n]); }
    }
  }

  lemma FlagsOpen(mods: string)
    ensures FlagsAfter(mods).inPct
  {
  }

  /** The type character ends the field and prints its text. */
  lemma TypeMeaning(args: seq<Arg>, out: string, mods: string, t: char)
    requires t != '\0' && !IsModifier(t)
    ensures Send(PF(args, out, FlagsAfter(mods)), t) == Fresh(RestFor(t, args), out + FieldText(mods, t, args))
  {
    hide Field, Digits, Width, ZeroFill, CharText, TextArg;
    if IsNumeric(t) {
      PrefixMeaning('#' in mods, t, args);
      var f := NumField(PF(args, out, FlagsAfter(mods)), t).f;
      assert Digits(f.num, f.base) == FieldBody(t, args);
      assert Prefix(f.neg, f.baseprefix, f.base) == FieldPrefix('#' in mods, t, args);
    }
  }

  lemma PrefixMeaning(alt: bool, t: char, args: seq<Arg>)
    requires IsNumeric(t)
    ensures Prefix(t == 'd' && Signed(WordArg(args)) < 0, alt || t == 'p', BaseOf(t)) == FieldPrefix(alt, t, args)
  {
  }

  lemma FieldMeaning(args: seq<Arg>, out: string, mods: string, t: char)
    requires AllMods(mods) && t != '\0' && !IsModifier(t)
    ensures NoNul(['%'] + mods + [t])
    ensures Run(Fresh(args, out), ['%'] + mods + [t]) == Fresh(RestFor(t, args), out + FieldText(mods, t, args))
  {
    hide FieldText, FlagsAfter, Run;
    ModsMeaning(args, out, mods);
    TypeMeaning(args, out, mods, t);
    RunOne(Fresh(args, out), '%');
    assert Send(Fresh(args, out), '%') == PF(args, out, FlagsAfter([])) by { NoMods(); }
    RunConcat(Fresh(args, out), ['%'], mods);
    RunConcat(Fresh(args, out), ['%'] + mods, [t]);
    RunOne(PF(args, out, FlagsAfter(mods)), t);
  }

  lemma NoMods()
    ensures IDLE.(inPct := true) == FlagsAfter([])
  {
  }

  /** For every format and argument list, the machine prints the meaning of the format. */
  lemma {:induction false} RunMeaning(fmt: string, args: seq<Arg>, out: string)
    requires NoNul(fmt)
    ensures Run(Fresh(args, out), fmt).out == out + Meaning(fmt, args)
    decreases |fmt|
  {
    hide Run, FieldText, RestFor, Meaning, Mods;
    if fmt == [] {
      RunNothing(Fresh(args, out));
      assert Meaning(fmt, args) == "" by { MeaningOfNothing(args); }
    } else if fmt[0] != '%' {
      RunText(fmt, args, out);
      RunMeaning(fmt[1..], args, out + [fmt[0]]);
      MeaningOfText(fmt, args);
      Associates(out, [fmt[0]], Meaning(fmt[1..], args));
    } else {
      var k := |Mods(fmt[1..])|;
      MeaningOfField(fmt, args);
      if k + 1 == |fmt| {
        RunOpenField(args, out, fmt[1..]);
        assert fmt == ['%'] + fmt[1..];
      } else {
        var mods, t := fmt[1..k + 1], fmt[k + 1];
        RunField(fmt, args, out, k);
        RunMeaning(fmt[k + 2..], RestFor(t, args), out + FieldText(mods, t, args));
        Associates(out, FieldText(mods, t, args), Meaning(fmt[k + 2..], RestFor(t, args)));
      }
    }
  }

  lemma Associates(a: string, b: string, c: string)
    ensures a + b + c == a + (b + c)
  {
  }

  lemma MeaningOfNothing(args: seq<Arg>)
    ensures Meaning([], args) == ""
  {
  }

  lemma MeaningOfText(fmt: string, args: seq<Arg>)
    requires fmt != [] && fmt[0] != '%'
    ensures Meaning(fmt, args) == [fmt[0]] + Meaning(fmt[1..], args)
  {
  }

  lemma MeaningOfField(fmt: string, args: seq<Arg>)
    requires fmt != [] && fmt[0] == '%'
    ensures var k := |Mods(fmt[1..])|;
      && k + 1 <= |fmt| && AllMods(fmt[1..k + 1]) && (k + 1 == |fmt| ==> Meaning(fmt, args) == "")
      && (k + 1 < |fmt| ==>
            && !IsModifier(fmt[k + 1])
            && Meaning(fmt, args) == FieldText(fmt[1..k + 1], fmt[k + 1], args)
                                   + Meaning(fmt[k + 2..], RestFor(fmt[k + 1], args)))
  {
    hide FieldText, RestFor;
    assert fmt[1..|Mods(fmt[1..])| + 1] == Mods(fmt[1..]);
  }

  lemma RunText(fmt: string, args: seq<Arg>, out: string)
    requires NoNul(fmt) && fmt != [] && fmt[0] != '%'
    ensures Run(Fresh(args, out), fmt) == Run(Fresh(args, out + [fmt[0]]), fmt[1..])
  {
    hide Run;
    RunLiteral(args, out, fmt[0]);
    RunConcat(Fresh(args, out), [fmt[0]], fmt[1..]);
    assert fmt == [fmt[0]] + fmt[1..];
  }

  lemma RunField(fmt: string, args: seq<Arg>, out: string, k: nat)
    requires NoNul(fmt) && k + 1 < |fmt| && fmt[0] == '%' && AllMods(fmt[1..k + 1]) && !IsModifier(fmt[k + 1])
    ensures var mods, t, rest := fmt[1..k + 1], fmt[k + 1], fmt[k + 2..];
      Run(Fresh(args, out), fmt) == Run(Fresh(RestFor(t, args), out + FieldText(mods, t, args)), rest)
  {
    hide Run, FieldText, RestFor;
    var mods, t, rest := fmt[1..k + 1], fmt[k + 1], fmt[k + 2..];
    FieldMeaning(args, out, mods, t);
    RunConcat(Fresh(args, out), ['%'] + mods + [t], rest);
    assert fmt == ['%'] + mods + [t] + rest;
  }

  lemma RunNothing(p: PF)
    ensures Run(p, []) == p
  {
  }

  lemma RunLiteral(args: seq<Arg>, out: string, c: char)
    requires c != '%' && c != '\0'
    ensures Run(Fresh(args, out), [c]) == Fresh(args, out + [c])
  {
    RunOne(Fresh(args, out), c);
  }

  lemma RunOpenField(args: seq<Arg>, out: string, mods: string)
    requires AllMods(mods)
    ensures NoNul(['%'] + mods) && Run(Fresh(args, out), ['%'] + mods).out == out
  {
    ModsMeaning(args, out, mods);
    RunOne(Fresh(args, out), '%');
    NoMods();
    RunConcat(Fresh(args, out), ['%'], mods);
  }

  // --------------------------------------------------------------------- laws

  /** A field takes as many characters as its text, or its width if that is more. */
  lemma FieldLength(mods: string, t: char, args: seq<Arg>)
    ensures var n := |FieldPrefix('#' in mods, t, args)| + |FieldBody(t, args)|;
      |FieldText(mods, t, args)| == if Width(mods) > n then Width(mods) else n
  {
    hide FieldPrefix, FieldBody, Width, ZeroFill;
  }

  /** Outside a field the machine remembers only the arguments left. */
  lemma {:induction false} IdleIsFresh(args: seq<Arg>, out: string, fmt: string)
    requires NoNul(fmt)
    ensures var p := Run(Fresh(args, out), fmt); !p.f.inPct ==> p == Fresh(p.args, p.out)
  {
    hide PrintNum, PrintStuff, NumField, CharText, TextArg, WordArg;
    if fmt != [] {
      IdleIsFresh(args, out, fmt[..|fmt| - 1]);
    }
  }

  /** A session may be cut wherever no field is open: two calls print the same. */
  lemma SplitSession(a: string, b: string, args: seq<Arg>)
    requires NoNul(a) && NoNul(b) && !Run(Fresh(args, ""), a).f.inPct
    ensures Meaning(a + b, args) == Meaning(a, args) + Meaning(b, Run(Fresh(args, ""), a).args)
  {
    hide Run, Meaning;
    var p := Run(Fresh(args, ""), a);
    IdleIsFresh(args, "", a);
    RunConcat(Fresh(args, ""), a, b);
    RunMeaning(a, args, "");
    RunMeaning(b, p.args, p.out);
    RunMeaning(a + b, args, "");
    assert "" + Meaning(a + b, args) == Meaning(a + b, args);
    assert "" + Meaning(a, args) == Meaning(a, args);
  }

  lemma NoNulField(mods: string, t: char, args: seq<Arg>)
    requires t != '\0'
    ensures NoNul(FieldText(mods, t, args))
  {
    NoNulBody(t, args);
    hide FieldBody, Width, ZeroFill;
  }

  lemma NoNulBody(t: char, args: seq<Arg>)
    requires t != '\0'
    ensures NoNul(FieldBody(t, args))
  {
    hide Digits;
    var w := WordArg(args);
    DigitsAre(if Signed(w) < 0 then -Signed(w) else w, 10);
    DigitsAre(w, 10);
    DigitsAre(w, 8);
    DigitsAre(w, 16);
  }

  /** The output is a C string: no NUL is ever printed. */
  lemma {:induction false} NoNulOutput(fmt: string, args: seq<Arg>)
    requires NoNul(fmt)
    ensures NoNul(Meaning(fmt, args))
    decreases |fmt|
  {
    hide FieldText, RestFor, Meaning, Mods;
    if fmt == [] {
      MeaningOfNothing(args);
    } else if fmt[0] != '%' {
      MeaningOfText(fmt, args);
      NoNulOutput(fmt[1..], args);
    } else {
      var k := |Mods(fmt[1..])|;
      MeaningOfField(fmt, args);
      if k + 1 < |fmt| {
        NoNulField(fmt[1..k + 1], fmt[k + 1], args);
        NoNulOutput(fmt[k + 2..], RestFor(fmt[k + 1], args));
      }
    }
  }
}
