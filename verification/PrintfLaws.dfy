/** What printf prints, said without the helpers that the machine and the grammar
    share: which argument each field takes, and what the texts are. */
module PrintfLaws {
  import opened Basics
  import opened PrintfModel

  // ----------------------------------------------------- which argument is whose

  /** A format string taken apart. */
  datatype Piece = Literal(c: char) | Spec(mods: string, t: char)

  function Pieces(fmt: string): seq<Piece>
    decreases |fmt|
  {
    if fmt == [] then []
    else if fmt[0] != '%' then [Literal(fmt[0])] + Pieces(fmt[1..])
    else
      var k := |Mods(fmt[1..])|;
      if k + 1 == |fmt| then [] else [Spec(fmt[1..k + 1], fmt[k + 1])] + Pieces(fmt[k + 2..])
  }

  /** The type characters that come with an argument. */
  predicate HasArg(p: Piece) {
    p.Spec? && p.t in "douxpsc"
  }

  /** How many of the pieces come with an argument. */
  function ArgCount(ps: seq<Piece>): nat {
    if ps == [] then 0 else (if HasArg(ps[0]) then 1 else 0) + ArgCount(ps[1..])
  }

  /** Argument number `k` alone, nothing if there are not that many. */
  function ArgAt(args: seq<Arg>, k: nat): seq<Arg> {
    if k < |args| then [args[k]] else []
  }

  /** The arguments from number `k` on. */
  function ArgsFrom(args: seq<Arg>, k: nat): seq<Arg> {
    if k < |args| then args[k..] else []
  }

  function PieceText(p: Piece, args: seq<Arg>, k: nat): string {
    match p
    case Literal(c) => [c]
    case Spec(mods, t) => FieldText(mods, t, ArgAt(args, k))
  }

  /** The texts of the pieces; the first that comes with an argument takes number `k`. */
  function Render(ps: seq<Piece>, args: seq<Arg>, k: nat): string {
    if ps == [] then ""
    else PieceText(ps[0], args, k) + Render(ps[1..], args, if HasArg(ps[0]) then k + 1 else k)
  }

  lemma RestIs(args: seq<Arg>, k: nat)
    ensures Rest(ArgsFrom(args, k)) == ArgsFrom(args, k + 1)
  {
  }

  lemma RestForIs(mods: string, t: char, args: seq<Arg>, k: nat)
    ensures RestFor(t, ArgsFrom(args, k)) == ArgsFrom(args, if HasArg(Spec(mods, t)) then k + 1 else k)
  {
    RestIs(args, k);
    hide Rest, ArgsFrom;
  }

  /** A field looks at one argument only. */
  lemma OneArgument(mods: string, t: char, args: seq<Arg>, k: nat)
    ensures FieldText(mods, t, ArgsFrom(args, k)) == FieldText(mods, t, ArgAt(args, k))
  {
    assert WordArg(ArgsFrom(args, k)) == WordArg(ArgAt(args, k));
    assert TextArg(ArgsFrom(args, k)) == TextArg(ArgAt(args, k));
    hide Field, Width, ZeroFill, WordArg, TextArg, Digits, CharText;
  }

  /** Field by field, the output is that of the pieces, each with the argument whose
      number is how many before it come with one. */
  lemma {:induction false} MeaningIsRender(fmt: string, args: seq<Arg>, k: nat)
    ensures Meaning(fmt, ArgsFrom(args, k)) == Render(Pieces(fmt), args, k)
    decreases |fmt|
  {
    hide Meaning, Mods, FieldText, RestFor, ArgsFrom, ArgAt;
    if fmt == [] {
      MeaningOfNothing(ArgsFrom(args, k));
    } else if fmt[0] != '%' {
      MeaningOfText(fmt, ArgsFrom(args, k));
      MeaningIsRender(fmt[1..], args, k);
      RenderFirst(Literal(fmt[0]), Pieces(fmt[1..]), args, k);
    } else {
      var n := |Mods(fmt[1..])|;
      MeaningOfField(fmt, ArgsFrom(args, k));
      if n + 1 < |fmt| {
        var mods, t := fmt[1..n + 1], fmt[n + 1];
        RestForIs(mods, t, args, k);
        OneArgument(mods, t, args, k);
        MeaningIsRender(fmt[n + 2..], args, if HasArg(Spec(mods, t)) then k + 1 else k);
        RenderFirst(Spec(mods, t), Pieces(fmt[n + 2..]), args, k);
      }
    }
  }

  lemma RenderFirst(p: Piece, ps: seq<Piece>, args: seq<Arg>, k: nat)
    ensures Render([p] + ps, args, k) == PieceText(p, args, k) + Render(ps, args, if HasArg(p) then k + 1 else k)
    ensures ArgCount([p] + ps) == (if HasArg(p) then 1 else 0) + ArgCount(ps)
  {
    hide PieceText;
    assert ([p] + ps)[1..] == ps;
  }

  /** Piece number `i` prints its text with the argument whose number is how many of
      the pieces before it come with one. */
  lemma {:induction false} RenderAt(ps: seq<Piece>, args: seq<Arg>, k: nat, i: nat)
    requires i < |ps|
    ensures Render(ps, args, k) ==
      Render(ps[..i], args, k) + PieceText(ps[i], args, k + ArgCount(ps[..i])) + Render(ps[i + 1..], args, k + ArgCount(ps[..i + 1]))
  {
    hide PieceText, HasArg;
    var next := if HasArg(ps[0]) then k + 1 else k;
    if i == 0 {
      assert ps[..1] == [ps[0]] && ps[..0] == [] && [ps[0]][1..] == [];
      assert ArgCount([ps[0]]) == if HasArg(ps[0]) then 1 else 0;
    } else {
      RenderAt(ps[1..], args, next, i - 1);
      assert ps[..i] == [ps[0]] + ps[1..][..i - 1];
      assert ps[..i + 1] == [ps[0]] + ps[1..][..i];
      RenderFirst(ps[0], ps[1..][..i - 1], args, k);
      RenderFirst(ps[0], ps[1..][..i], args, k);
      assert ps[1..][i..] == ps[i + 1..];
    }
  }

  /** Field number `i` of any format, whatever the other fields are. */
  lemma FieldTakesItsArgument(fmt: string, args: seq<Arg>, i: nat)
    requires i < |Pieces(fmt)|
    ensures var ps := Pieces(fmt); var k := ArgCount(ps[..i]);
      Meaning(fmt, args) == Render(ps[..i], args, 0) + PieceText(ps[i], args, k) + Render(ps[i + 1..], args, ArgCount(ps[..i + 1]))
  {
    hide Meaning, Render, PieceText, Pieces, ArgCount;
    assert ArgsFrom(args, 0) == args;
    MeaningIsRender(fmt, args, 0);
    RenderAt(Pieces(fmt), args, 0, i);
  }

  function ArgsIn(fmt: string): nat {
    ArgCount(Pieces(fmt))
  }

  lemma ArgsInText(fmt: string)
    ensures fmt == [] ==> ArgsIn(fmt) == 0
    ensures fmt != [] && fmt[0] != '%' ==> ArgsIn(fmt) == ArgsIn(fmt[1..])
  {
    if fmt != [] && fmt[0] != '%' {
      RenderFirst(Literal(fmt[0]), Pieces(fmt[1..]), [], 0);
    }
  }

  lemma ArgsInField(fmt: string)
    requires fmt != [] && fmt[0] == '%'
    ensures var n := |Mods(fmt[1..])|;
      ArgsIn(fmt) == if n + 1 == |fmt| then 0
                     else (if HasArg(Spec(fmt[1..n + 1], fmt[n + 1])) then 1 else 0) + ArgsIn(fmt[n + 2..])
  {
    hide Mods, HasArg;
    var n := |Mods(fmt[1..])|;
    if n + 1 < |fmt| {
      RenderFirst(Spec(fmt[1..n + 1], fmt[n + 1]), Pieces(fmt[n + 2..]), [], 0);
    }
  }

  /** The machine has taken as many arguments as complete fields came with one. */
  lemma {:induction false} ArgumentsTaken(fmt: string, args: seq<Arg>, k: nat, out: string)
    requires NoNul(fmt)
    ensures Run(Fresh(ArgsFrom(args, k), out), fmt).args == ArgsFrom(args, k + ArgsIn(fmt))
    decreases |fmt|
  {
    hide Run, Mods, FieldText, RestFor, ArgsFrom, NoNul, ArgsIn, HasArg;
    NoNulParts(fmt);
    ArgsInText(fmt);
    if fmt == [] {
      RunNothing(Fresh(ArgsFrom(args, k), out));
    } else if fmt[0] != '%' {
      RunText(fmt, ArgsFrom(args, k), out);
      ArgumentsTaken(fmt[1..], args, k, out + [fmt[0]]);
    } else {
      var n := |Mods(fmt[1..])|;
      ArgsInField(fmt);
      MeaningOfField(fmt, ArgsFrom(args, k));
      if n + 1 < |fmt| {
        ArgumentsAfter(fmt, args, k, out, n);
        var next := if HasArg(Spec(fmt[1..n + 1], fmt[n + 1])) then k + 1 else k;
        ArgumentsTaken(fmt[n + 2..], args, next, out + FieldText(fmt[1..n + 1], fmt[n + 1], ArgsFrom(args, k)));
      } else {
        OpenFieldTakesNone(ArgsFrom(args, k), out, fmt[1..]);
        assert fmt == ['%'] + fmt[1..];
      }
    }
  }

  lemma ArgumentsAfter(fmt: string, args: seq<Arg>, k: nat, out: string, n: nat)
    requires NoNul(fmt) && n + 1 < |fmt| && fmt[0] == '%' && AllMods(fmt[1..n + 1]) && !IsModifier(fmt[n + 1])
    ensures var mods, t := fmt[1..n + 1], fmt[n + 1];
      Run(Fresh(ArgsFrom(args, k), out), fmt) ==
        Run(Fresh(ArgsFrom(args, if HasArg(Spec(mods, t)) then k + 1 else k), out + FieldText(mods, t, ArgsFrom(args, k))), fmt[n + 2..])
  {
    hide Run, FieldText, RestFor, ArgsFrom, HasArg;
    RestForIs(fmt[1..n + 1], fmt[n + 1], args, k);
    RunField(fmt, ArgsFrom(args, k), out, n);
  }

  lemma NoNulParts(fmt: string)
    requires NoNul(fmt)
    ensures forall i :: 0 <= i <= |fmt| ==> NoNul(fmt[i..])
  {
  }

  lemma OpenFieldTakesNone(args: seq<Arg>, out: string, mods: string)
    requires AllMods(mods)
    ensures NoNul(['%'] + mods) && Run(Fresh(args, out), ['%'] + mods).args == args
  {
    ModsMeaning(args, out, mods);
    RunOne(Fresh(args, out), '%');
    NoMods();
    RunConcat(Fresh(args, out), ['%'], mods);
  }

  /** With enough arguments, that many are gone after a session. */
  lemma SessionTakes(fmt: string, args: seq<Arg>)
    requires NoNul(fmt) && ArgsIn(fmt) <= |args|
    ensures Run(Fresh(args, ""), fmt).args == args[ArgsIn(fmt)..]
  {
    hide Run, ArgsIn;
    assert ArgsFrom(args, 0) == args;
    ArgumentsTaken(fmt, args, 0, "");
  }

  // -------------------------------------------------------------- what is printed

  lemma ModifierSet(c: char)
    ensures IsModifier(c) <==> c in "#-ql0123456789"
  {
  }

  /** %s prints the string up to its NUL, or "(null)" for a null pointer. */
  lemma TextPrinted(s: string, rest: seq<Arg>)
    ensures FieldBody('s', [Text(s)] + rest) == CStr(s)
    ensures FieldBody('s', [Null] + rest) == ['(', 'n', 'u', 'l', 'l', ')']
  {
  }

  /** %c prints the low byte of the word, unless that is NUL. */
  lemma CharPrinted(w: int, rest: seq<Arg>)
    requires 0 <= w < TWO_TO_32
    ensures FieldBody('c', [Num(w)] + rest) == if w % 256 == 0 then "" else [(w - w / 256 * 256) as char]
  {
    var args := [Num(w)] + rest;
    assert args[0] == Num(w) && WordArg(args) == w;
    assert w % 256 == w - w / 256 * 256;
    OneChar((w % 256) as char);
  }

  lemma OneChar(c: char)
    ensures CStr([c]) == if c == '\0' then "" else [c]
  {
    assert [c][1..] == [];
  }

  /** A field without an argument left prints as for 0 or a null pointer. */
  lemma NothingLeft(t: char)
    ensures FieldBody('s', []) == FieldBody('s', [Null])
    ensures t != 's' ==> FieldBody(t, []) == FieldBody(t, [Num(0)])
  {
    assert WordArg([Num(0)]) == 0;
  }

  /** The other type characters but the numeric ones print themselves. */
  lemma OtherPrinted(t: char, args: seq<Arg>)
    requires t !in "douxpsc"
    ensures FieldBody(t, args) == [t] && FieldPrefix(true, t, args) == FieldPrefix(false, t, args) == ""
  {
  }

  /** The digits printed stand for the argument: the word itself for %u, %x, %p and %o
      in their bases, the magnitude of the signed number for %d, whose minus sign is
      printed exactly when it is negative. */
  lemma NumberPrinted(w: int, rest: seq<Arg>)
    requires 0 <= w < TWO_TO_32
    ensures var args := [Num(w)] + rest;
      && Value(FieldBody('u', args), 10) == w && Value(FieldBody('o', args), 8) == w
      && Value(FieldBody('x', args), 16) == w && Value(FieldBody('p', args), 16) == w
      && Value(FieldBody('d', args), 10) == (if w < 0x8000_0000 then w else TWO_TO_32 - w)
      && FieldPrefix(false, 'd', args) == (if w < 0x8000_0000 then "" else "-")
  {
    hide Value, Digits, FieldBody, FieldPrefix;
    NumberBody(w, rest);
    DigitsValue(w, 8);
    DigitsValue(w, 10);
    DigitsValue(w, 16);
    DigitsValue(if w < 0x8000_0000 then w else TWO_TO_32 - w, 10);
  }

  lemma NumberBody(w: int, rest: seq<Arg>)
    requires 0 <= w < TWO_TO_32
    ensures var args := [Num(w)] + rest;
      && FieldBody('u', args) == Digits(w, 10) && FieldBody('o', args) == Digits(w, 8)
      && FieldBody('x', args) == FieldBody('p', args) == Digits(w, 16)
      && FieldBody('d', args) == Digits(if w < 0x8000_0000 then w else TWO_TO_32 - w, 10)
      && FieldPrefix(false, 'd', args) == (if w < 0x8000_0000 then "" else "-")
  {
    hide Digits;
    var args := [Num(w)] + rest;
    assert args[0] == Num(w) && WordArg(args) == w;
  }

  lemma PrefixPrinted(args: seq<Arg>)
    ensures FieldPrefix(true, 'x', args) == FieldPrefix(false, 'p', args) == FieldPrefix(true, 'p', args) == "0x"
    ensures FieldPrefix(true, 'o', args) == "0" && FieldPrefix(true, 'u', args) == ""
    ensures FieldPrefix(false, 'x', args) == FieldPrefix(false, 'o', args) == FieldPrefix(false, 'u', args) == ""
  {
  }

  /** Numbers have no leading zero and no letter but a to f. */
  lemma {:induction false} DigitsAreLower(n: nat, b: nat)
    requires Base(b)
    ensures forall i :: 0 <= i < |Digits(n, b)| ==> Digits(n, b)[i] in "0123456789abcdef"
    ensures n > 0 ==> Digits(n, b)[0] != '0'
  {
    if n >= b {
      DivLess(n, b);
      DigitsAreLower(n / b, b);
    } else if n > 0 {
      assert DigitValue(Digit(n)) == n;
    }
  }

  /** Where the padding of a field goes and what it is made of. */
  lemma FieldShape(width: nat, left: bool, fill: char, prefix: string, stuff: string)
    requires fill == ' ' || fill == '0'
    ensures var f := Field(width, left, fill, prefix, stuff); var n := |prefix| + |stuff|;
      && |f| == (if width > n then width else n)
      && (left ==> f[..n] == prefix + stuff && forall i :: n <= i < |f| ==> f[i] == fill)
      && (!left ==> f[|f| - |stuff|..] == stuff)
      && (!left && fill == ' ' ==> f[|f| - n..|f| - |stuff|] == prefix && forall i :: 0 <= i < |f| - n ==> f[i] == ' ')
      && (!left && fill == '0' ==> f[..|prefix|] == prefix && forall i :: |prefix| <= i < |f| - |stuff| ==> f[i] == '0')
  {
    hide Repeat;
  }
}
