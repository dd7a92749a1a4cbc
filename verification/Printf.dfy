/** The printf engine and its bounded sink (libc/__printf.c and libc/snprintf.c). */
module Printf {
  import opened Basics
  import opened PrintfModel

  /** The sink of vsnprintf. `sent` is everything sent, `before` the buffer at the start. */
  class Snp {
    const buf: array?<char>
    const buflen: nat
    var bufpos: nat
    ghost var sent: string
    ghost const before: string

    ghost predicate Valid()
      reads this, buf
    {
      && bufpos == (if |sent| < buflen then |sent| else buflen)
      && (buf == null ==> buflen == 0)
      && (buf != null ==> |before| == buf.Length && bufpos <= buflen <= buf.Length)
      && (buf != null ==> buf[..] == sent[..bufpos] + before[bufpos..])
    }

    constructor (buf: array?<char>, len: nat)
      requires len > 0 ==> buf != null && len <= buf.Length
      ensures Valid() && sent == [] && this.buf == buf && buflen == (if len == 0 then 0 else len - 1)
      ensures buf != null ==> before == buf[..]
    {
      this.buf := buf;
      if len == 0 {
        buflen := 0;
      } else {
        buflen := len - 1;
      }
      bufpos := 0;
      sent := [];
      before := if buf == null then [] else buf[..];
    }

    /** Keep what there is room for. */
    method Send(data: string)
      requires Valid()
      modifies this`bufpos, this`sent, buf
      ensures Valid() && sent == old(sent) + data
    {
      var i := 0;
      while i < |data|
        invariant i <= |data| && Valid() && sent == old(sent) + data[..i]
      {
        ghost var kept := sent[..bufpos];
        if bufpos < buflen {
          buf[bufpos] := data[i];
          bufpos := bufpos + 1;
        }
        sent := sent + [data[i]];
        assert sent[..bufpos] == kept || sent[..bufpos] == kept + [data[i]];
        i := i + 1;
      }
    }
  }

  /** What printf sends to the sink, one field of state per member of the record. */
  class Printer {
    const snp: Snp
    var ap: seq<Arg>
    var charcount: nat
    var inPct: bool
    var size: Size
    var num: int
    var sign: int
    var spacing: nat
    var rightspc: bool
    var fillchar: char
    var base: nat
    var baseprefix: bool
    var altformat: bool

    ghost predicate Valid()
      reads this, snp, snp.buf
    {
      snp.Valid() && charcount == |snp.sent| && 0 <= num < TWO_TO_32
    }

    ghost function F(): Flags
      reads this`inPct, this`size, this`num, this`sign, this`spacing, this`rightspc, this`fillchar, this`base
      reads this`baseprefix, this`altformat
    {
      Flags(inPct, size, num, sign != 0, spacing, rightspc, fillchar, base, baseprefix, altformat)
    }

    ghost function View(): PF
      reads this, snp
    {
      PF(ap, snp.sent, F())
    }

    constructor (snp: Snp, ap: seq<Arg>)
      requires snp.Valid() && snp.sent == []
      ensures Valid() && View() == Fresh(ap, "") && this.snp == snp
    {
      this.snp := snp;
      this.ap := ap;
      charcount := 0;
      inPct, size, num, sign, spacing, rightspc := false, INTSZ, 0, 0, 0, false;
      fillchar, base, baseprefix, altformat := ' ', 0, false, false;
    }

    method PrintText(txt: string)
      requires Valid()
      modifies this`charcount, snp`bufpos, snp`sent, snp.buf
      ensures Valid() && View() == Print(old(View()), txt)
    {
      snp.Send(txt);
      charcount := charcount + |txt|;
    }

    method EndOfField()
      requires Valid()
      modifies this`inPct, this`size, this`num, this`sign, this`spacing, this`rightspc, this`fillchar, this`base
      modifies this`baseprefix, this`altformat
      ensures Valid() && F() == IDLE
    {
      hide Snp.Valid;
      inPct, size, num, sign, spacing, rightspc := false, INTSZ, 0, 0, 0, false;
      fillchar, base, baseprefix, altformat := ' ', 0, false, false;
    }

    method Modifier(ch: char)
      requires Valid() && IsModifier(ch)
      modifies this`altformat, this`rightspc, this`size, this`spacing, this`fillchar
      ensures Valid() && F() == Modify(old(F()), ch)
    {
      match ch {
        case '#' => altformat := true;
        case '-' => rightspc := true;
        case 'l' =>
          if size != LONGSZ {
            size := LONGSZ;
          }
        case 'q' => size := LONGSZ;
        case '0' =>
          if spacing > 0 {
            spacing := spacing * 10;
          } else {
            fillchar := '0';
          }
        case _ =>
          assert '0' < ch <= '9';
          spacing := spacing * 10 + (ch - '0') as nat;
      }
    }

    /** Fetch a number; int and long are the same size. */
    method FetchNum(ch: char)
      requires Valid()
      modifies this`ap, this`num, this`sign
      ensures Valid() && ap == Rest(old(ap)) && F() == GetNum(old(F()), ch, WordArg(old(ap)))
    {
      var w := WordArg(ap);
      ap := Rest(ap);
      if ch == 'd' {
        var signednum := Signed(w);
        if signednum < 0 {
          sign := -1;
          num := -signednum % TWO_TO_32;
        } else {
          num := signednum;
        }
      } else {
        num := w;
      }
    }

    method ChooseBase(ch: char)
      requires Valid() && IsNumeric(ch)
      modifies this`base, this`baseprefix
      ensures Valid() && F() == SetBase(old(F()), ch)
    {
      match ch {
        case 'd' => base := 10;
        case 'u' => base := 10;
        case 'x' => base := 16;
        case 'p' => base := 16;
        case _ => base := 8;
      }
      if altformat || ch == 'p' {
        baseprefix := true;
      }
    }

    method Fill(spc: nat)
      requires Valid()
      modifies this`charcount, snp`bufpos, snp`sent, snp.buf
      ensures Valid() && View() == Print(old(View()), Repeat(fillchar, spc))
    {
      var i := 0;
      while i < spc
        invariant i <= spc && Valid() && View() == Print(old(View()), Repeat(fillchar, i))
      {
        PrintText([fillchar]);
        i := i + 1;
      }
    }

    /** Blank padding, prefixes, zero padding, the text, padding on the right. */
    method PutStuff(prefix: string, prefix2: string, stuff: string)
      requires Valid()
      modifies this`charcount, snp`bufpos, snp`sent, snp.buf
      ensures Valid() && View() == PrintStuff(old(View()), prefix + prefix2, stuff)
    {
      hide Snp.Valid, Field, Repeat;
      ghost var out := snp.sent;
      var len := |prefix| + |prefix2| + |stuff|;
      var spc := spacing;
      if spc > len {
        spc := spc - len;
      } else {
        spc := 0;
      }
      ghost var a := FillIf(spc > 0 && !rightspc && fillchar != '0', spc);
      PrintText(prefix);
      PrintText(prefix2);
      ghost var b := FillIf(spc > 0 && !rightspc && fillchar == '0', spc);
      PrintText(stuff);
      ghost var c := FillIf(spc > 0 && rightspc, spc);
      FieldPieces(spacing, rightspc, fillchar, prefix + prefix2, stuff, a, b, c);
      Layout(out, a, prefix, prefix2, b, stuff, c);
    }

    method FillIf(wanted: bool, spc: nat) returns (ghost pad: string)
      requires Valid()
      modifies this`charcount, snp`bufpos, snp`sent, snp.buf
      ensures Valid() && pad == (if wanted then Repeat(fillchar, spc) else "") && View() == Print(old(View()), pad)
    {
      pad := "";
      if wanted {
        pad := Repeat(fillchar, spc);
        Fill(spc);
      }
    }

    /** The digits, from right to left in a buffer of 12 characters. */
    method PutNum()
      requires Valid() && Base(base)
      modifies this`charcount, snp`bufpos, snp`sent, snp.buf
      ensures Valid() && View() == PrintNum(old(View()))
    {
      var stuff := Convert(num, base);
      var bprefix := if baseprefix && base == 16 then "0x" else if baseprefix && base == 8 then "0" else "";
      var sprefix := if sign != 0 then "-" else "";
      assert sprefix + bprefix == Prefix(sign != 0, baseprefix, base);
      PutStuff(sprefix, bprefix, stuff);
    }

    method SendChar(ch: char)
      requires Valid() && ch != '\0'
      modifies this, snp`bufpos, snp`sent, snp.buf
      ensures Valid() && View() == Send(old(View()), ch)
    {
      hide Snp.Valid, Field, Digits, CStr, GetNum, Modify;
      assert "" + "" == "";
      if !inPct && ch != '%' {
        PrintText([ch]);
      } else if !inPct {
        inPct := true;
      } else if IsModifier(ch) {
        Modifier(ch);
      } else if IsNumeric(ch) {
        FetchNum(ch);
        ChooseBase(ch);
        PutNum();
        EndOfField();
      } else if ch == 's' {
        var str := TextArg(ap);
        ap := Rest(ap);
        PutStuff("", "", str);
        EndOfField();
      } else {
        var x := if ch == 'c' then CharText(WordArg(ap)) else [ch];
        if ch == 'c' {
          ap := Rest(ap);
        }
        PutStuff("", "", x);
        EndOfField();
      }
    }
  }

  lemma Layout(out: string, a: string, p: string, q: string, b: string, s: string, c: string)
    ensures out + a + p + q + b + s + c == out + (a + (p + q) + b + s + c)
  {
  }

  /** The pieces of a field in the order they are sent. */
  lemma FieldPieces(width: nat, left: bool, fill: char, p: string, s: string, a: string, b: string, c: string)
    requires var n := |p| + |s|; var spc := if width > n then width - n else 0; var pad := Repeat(fill, spc);
      && a == (if spc > 0 && !left && fill != '0' then pad else "")
      && b == (if spc > 0 && !left && fill == '0' then pad else "")
      && c == (if spc > 0 && left then pad else "")
    ensures Field(width, left, fill, p, s) == a + p + b + s + c
  {
  }

  const NUMBER_BUF_SIZE: nat := 32 / 3 + 2

  /** The digit loop of __pf_printnum: every store is inside the buffer. Returns
      where the text starts. */
  method FillDigits(buf: array<char>, num: int, base: nat) returns (x: int)
    requires buf.Length == NUMBER_BUF_SIZE && 0 <= num < TWO_TO_32 && Base(base)
    modifies buf
    ensures 0 <= x < 11 && buf[11] == '\0' && buf[x..11] == Digits(num, base)
  {
    ElevenDigits(num, base);
    hide Digits, Base, Digit, DigitValue, Power;
    x := NUMBER_BUF_SIZE - 1;
    buf[x] := '\0';
    x := x - 1;
    var xnum := num;
    assert buf[x + 1..11] == [];
    while true
      invariant -1 <= x < 11 && 0 <= xnum && buf[11] == '\0'
      invariant Digits(num, base) == Digits(xnum, base) + buf[x + 1..11]
      decreases xnum
    {
      ghost var done := buf[x + 1..11];
      DigitStep(xnum, base, done);
      var c := Digit(xnum % base);
      buf[x] := c;
      x := x - 1;
      assert buf[x + 1..11] == [c] + done;
      xnum := xnum / base;
      if xnum == 0 {
        break;
      }
    }
    x := x + 1;
  }

  /** The number as text: what stands in the buffer up to the NUL. */
  method Convert(num: int, base: nat) returns (text: string)
    requires 0 <= num < TWO_TO_32 && Base(base)
    ensures text == Digits(num, base)
  {
    hide Digits, CStr;
    var buf := new char[NUMBER_BUF_SIZE];
    var x := FillDigits(buf, num, base);
    text := CStr(buf[x..]);
    DigitText(buf[..], x, num, base);
    assert buf[..][x..] == buf[x..];
  }

  /** The digits in the buffer end at its NUL. */
  lemma DigitText(b: string, x: nat, num: nat, base: nat)
    requires Base(base) && |b| == 12 && x <= 11 && b[11] == '\0' && b[x..11] == Digits(num, base)
    ensures CStr(b[x..]) == Digits(num, base)
  {
    DigitsAre(num, base);
    hide Digits, CStr, IsDigit;
    var s := b[x..];
    assert s[..11 - x] == b[x..11];
    forall i | 0 <= i < 11 - x ensures s[i] != '\0' {
      assert s[i] == b[x..11][i];
    }
    CStrAt(s, 11 - x);
  }

  lemma DigitStep(n: nat, b: nat, done: string)
    requires Base(b)
    ensures b > 0 && 0 <= n % b < b <= 16 && 0 <= n / b && (n > 0 ==> n / b < n)
    ensures Digits(n, b) + done == (if n / b == 0 then [] else Digits(n / b, b)) + ([Digit(n % b)] + done)
  {
    hide Digit, DigitValue;
    if n < b {
      SmallDiv(n, b);
    } else {
      DivLess(n, b);
    }
  }

  lemma SmallDiv(n: nat, b: nat)
    requires Base(b) && n < b
    ensures n / b == 0 && n % b == n
  {
  }

  /** A whole session: print each character of the format up to its NUL. */
  method VPrintf(snp: Snp, format: string, ap: seq<Arg>) returns (total: nat)
    requires snp.Valid() && snp.sent == []
    modifies snp`bufpos, snp`sent, snp.buf
    ensures snp.Valid() && snp.sent == Meaning(CStr(format), ap) && total == |snp.sent|
  {
    hide Send, Meaning, CStr;
    var pf := new Printer(snp, ap);
    var i := 0;
    ghost var fmt := CStr(format);
    CStrPrefix(format);
    RunNothing(Fresh(ap, ""));
    assert fmt[..0] == [];
    while i < |format| && format[i] != '\0'
      invariant i <= |fmt| && pf.Valid() && fresh(pf) && pf.snp == snp
      invariant pf.View() == Run(Fresh(ap, ""), fmt[..i])
    {
      pf.SendChar(format[i]);
      assert fmt[..i + 1][..i] == fmt[..i];
      i := i + 1;
    }
    assert fmt[..i] == fmt;
    RunMeaning(fmt, ap, "");
    return pf.charcount;
  }

  lemma {:induction false} CStrPrefix(s: string)
    ensures var r := CStr(s); r == s[..|r|] && (|r| < |s| ==> s[|r|] == '\0')
  {
    if s != [] && s[0] != '\0' {
      CStrPrefix(s[1..]);
    }
  }

  /** How much of the output a buffer of `len` characters has room for. */
  function Kept(out: string, len: nat): (k: nat)
    requires len > 0
    ensures k <= |out| && k < len && (k == |out| || k == len - 1)
  {
    if |out| < len - 1 then |out| else len - 1
  }

  /** The buffer afterwards: the part kept, a NUL, and the rest as before. */
  function Stored(out: string, len: nat, before: string): string
    requires 0 < len <= |before|
  {
    out[..Kept(out, len)] + ['\0'] + before[Kept(out, len) + 1..]
  }

  lemma Terminated(sent: string, len: nat, before: string)
    requires NoNul(sent) && 0 < len <= |before|
    ensures var k := Kept(sent, len); var s := (sent[..k] + before[k..])[k := '\0'];
      && s == Stored(sent, len, before)
      && (|sent| < len ==> CStr(s) == sent) && (len <= |sent| ==> CStr(s) == sent[..len - 1])
  {
    var k := Kept(sent, len);
    assert sent[..|sent|] == sent;
    CStrAt((sent[..k] + before[k..])[k := '\0'], k);
  }

  /** vsnprintf: the NUL-terminated prefix of the whole output that fits, nothing
      else in the buffer changed, and the length of the whole output. */
  method VSnprintf(buf: array?<char>, len: nat, fmt: string, ap: seq<Arg>) returns (chars: nat)
    requires len > 0 ==> buf != null && len <= buf.Length
    modifies buf
    ensures chars == |Meaning(CStr(fmt), ap)|
    ensures buf != null && len == 0 ==> buf[..] == old(buf[..])
    ensures len > 0 ==> buf[..] == Stored(Meaning(CStr(fmt), ap), len, old(buf[..]))
    ensures chars < len ==> CStr(buf[..]) == Meaning(CStr(fmt), ap)
    ensures 0 < len <= chars ==> CStr(buf[..]) == Meaning(CStr(fmt), ap)[..len - 1]
  {
    hide Meaning, CStr, Stored;
    var snp := new Snp(buf, len);
    chars := VPrintf(snp, fmt, ap);
    if len > 0 {
      Finish(buf, len, snp);
    }
    NoNulOutput(CStr(fmt), ap);
    if len > 0 {
      Terminated(snp.sent, len, old(buf[..]));
    }
  }

  /** Add the NUL. */
  method Finish(buf: array<char>, len: nat, snp: Snp)
    requires snp.Valid() && snp.buf == buf && 0 < len <= buf.Length && snp.buflen == len - 1
    modifies buf
    ensures var k := Kept(snp.sent, len); buf[..] == (snp.sent[..k] + snp.before[k..])[k := '\0']
  {
    ghost var filled := buf[..];
    buf[snp.bufpos] := '\0';
    assert buf[..] == filled[snp.bufpos := '\0'];
  }
}
