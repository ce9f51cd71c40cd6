/** What `vsprintf` prints for a conversion with flags, width and precision, in terms of the
    characters of the format (src/printf.c:159-293). */
module FormatFields {
  import opened Numerals
  import opened Printf
  import opened Vsprintf
  import opened NumberFields

  // ------------------------------------------------- Reading a specification

  predicate AllFlags(fs: string) {
    forall i :: 0 <= i < |fs| ==> IsFlag(fs[i])
  }

  /** The flags that a string names, and those of `fl`. */
  function Named(fs: string, fl: Flags): Flags {
    Flags(fl.zeroPad || '0' in fs, fl.sign, fl.plus || '+' in fs, fl.space || ' ' in fs,
          fl.left || '-' in fs, fl.special || '#' in fs, fl.small)
  }

  lemma InCons(x: char, c: char, fs: string)
    ensures x in [c] + fs <==> x == c || x in fs
  {}

  lemma NamedCons(c: char, fs: string, fl: Flags)
    requires IsFlag(c)
    ensures Named([c] + fs, fl) == Named(fs, WithFlag(c, fl))
  {
    InCons('-', c, fs);
    InCons('+', c, fs);
    InCons(' ', c, fs);
    InCons('#', c, fs);
    InCons('0', c, fs);
  }

  /** A string of flag characters sets exactly the flags that it names. */
  lemma {:induction false} FlagsAreRead(fs: string, rest: string, fl: Flags)
    requires AllFlags(fs) && !IsFlag(CharAt(rest, 0))
    ensures FlagsOf(fs + rest, fl) == (rest, Named(fs, fl))
    decreases |fs|
  {
    if fs == "" {
      assert fs + rest == rest;
    } else {
      assert (fs + rest)[1..] == fs[1..] + rest && fs == [fs[0]] + fs[1..];
      NamedCons(fs[0], fs[1..], fl);
      hide Named, IsFlag, WithFlag;
      FlagsAreRead(fs[1..], rest, WithFlag(fs[0], fl));
    }
  }

  /** What the flags of a specification say, for every string of flag characters; LEFT is set
      by a negative argument for the width as well. */
  lemma SpecFlags(fs: string, rest: string, args: seq<Arg>)
    requires AllFlags(fs) && !IsFlag(CharAt(rest, 0))
    ensures var fl := SpecOf(fs + rest, args).flags;
            && (fl.left <==> '-' in fs || (CharAt(rest, 0) == '*' && WordOf(args) >= 0x8000_0000))
            && (fl.plus <==> '+' in fs) && (fl.space <==> ' ' in fs)
            && (fl.special <==> '#' in fs) && (fl.zeroPad <==> '0' in fs) && !fl.sign && !fl.small
  {
    FlagsAreRead(fs, rest, NO_FLAGS);
    hide FlagsOf, PrecisionOf, SkipQualifier, AtoiOf, IsFlag, IsDecimal;
  }

  /** Decimal digits in front of a text add up to their value. */
  lemma {:induction false} AtoiReads(ds: string, rest: string)
    requires AllDigits(ds, 10)
    ensures AtoiOf(ds + rest, 0) == AtoiOf(rest, Value(ds, 10))
    decreases |ds|
  {
    if ds == "" {
      assert ds + rest == rest;
    } else {
      var n := |ds| - 1;
      var tail := [ds[n]] + rest;
      assert ds + rest == ds[..n] + tail && tail[1..] == rest;
      AtoiReads(ds[..n], tail);
    }
  }

  lemma NumeralIsRead(w: nat, rest: string)
    requires !IsDecimal(CharAt(rest, 0))
    ensures AtoiOf(Numeral(w, 10, false) + rest, 0) == (rest, w)
    ensures IsDecimal(CharAt(Numeral(w, 10, false) + rest, 0))
    ensures w > 0 ==> !IsFlag(CharAt(Numeral(w, 10, false) + rest, 0))
  {
    NumeralDigits(w, 10, false);
    NumeralValue(w, 10, false);
    AtoiReads(Numeral(w, 10, false), rest);
    hide Numeral, Value;
    var c := Numeral(w, 10, false)[0];
    assert IsDigitIn(c, 10);
  }

  /** The width as it stands in a format, and the precision. */
  function WidthText(w: Option<nat>): string {
    if w.Some? then Numeral(w.value, 10, false) else ""
  }

  function PrecisionText(p: Option<nat>): string {
    if p.Some? then "." + Numeral(p.value, 10, false) else ""
  }

  predicate IsQualifierText(q: string) {
    q == "" || (|q| == 1 && IsQualifier(q[0]))
  }

  /** A conversion character, no other part of a specification. */
  predicate IsConv(c: char) {
    !IsFlag(c) && !IsDecimal(c) && c != '*' && c != '.' && !IsQualifier(c) && c != '\0'
  }

  function SpecText(fs: string, w: Option<nat>, p: Option<nat>, q: string, conv: char, rest: string): string {
    fs + (WidthText(w) + (PrecisionText(p) + (q + ([conv] + rest))))
  }

  function SpecFor(fs: string, w: Option<nat>, p: Option<nat>, conv: char, rest: string, args: seq<Arg>): Spec {
    Spec(Named(fs, NO_FLAGS), if w.Some? then w.value else -1, if p.Some? then p.value else -1, conv, rest, args)
  }

  lemma WidthIsRead(w: Option<nat>, rest: string, args: seq<Arg>, fl: Flags)
    requires !IsDecimal(CharAt(rest, 0)) && CharAt(rest, 0) != '*' && !IsFlag(CharAt(rest, 0))
    requires w.Some? ==> w.value > 0
    ensures !IsFlag(CharAt(WidthText(w) + rest, 0))
    ensures WidthOf(WidthText(w) + rest, args, fl) == (rest, if w.Some? then w.value else -1, args, fl)
  {
    if w.Some? {
      NumeralIsRead(w.value, rest);
    } else {
      assert "" + rest == rest;
    }
  }

  lemma PrecisionIsRead(p: Option<nat>, rest: string, args: seq<Arg>)
    requires !IsDecimal(CharAt(rest, 0)) && CharAt(rest, 0) != '.' && !IsFlag(CharAt(rest, 0))
    requires CharAt(rest, 0) != '*'
    ensures var f := PrecisionText(p) + rest;
            && !IsDecimal(CharAt(f, 0)) && CharAt(f, 0) != '*' && !IsFlag(CharAt(f, 0))
            && PrecisionOf(f, args) == (rest, if p.Some? then p.value else -1, args)
  {
    if p.Some? {
      var n := Numeral(p.value, 10, false);
      assert ("." + n + rest)[1..] == n + rest;
      NumeralIsRead(p.value, rest);
    } else {
      assert "" + rest == rest;
    }
  }

  lemma QualifierIsRead(q: string, conv: char, rest: string)
    requires IsQualifierText(q) && IsConv(conv)
    ensures var f := q + ([conv] + rest);
            && SkipQualifier(f) == [conv] + rest && CharAt(f, 0) != '.' && CharAt(f, 0) != '*'
            && !IsDecimal(CharAt(f, 0)) && !IsFlag(CharAt(f, 0))
  {
    var f := q + ([conv] + rest);
    if q == "" {
      assert f == [conv] + rest;
    } else {
      assert f[1..] == [conv] + rest;
    }
  }

  /** Every specification of flags, width, precision and qualifier is read as it is meant. */
  lemma SpecIsRead(fs: string, w: Option<nat>, p: Option<nat>, q: string, conv: char, rest: string, args: seq<Arg>)
    requires AllFlags(fs) && (w.Some? ==> w.value > 0) && IsQualifierText(q) && IsConv(conv)
    ensures SpecOf(SpecText(fs, w, p, q, conv, rest), args) == SpecFor(fs, w, p, conv, rest, args)
  {
    hide FlagsOf, Named, WidthOf, PrecisionOf, SkipQualifier, WidthText, PrecisionText, IsFlag, IsDecimal;
    var f4 := q + ([conv] + rest);
    QualifierIsRead(q, conv, rest);
    PrecisionIsRead(p, f4, args);
    WidthIsRead(w, PrecisionText(p) + f4, args, Named(fs, NO_FLAGS));
    FlagsAreRead(fs, WidthText(w) + (PrecisionText(p) + f4), NO_FLAGS);
    assert ([conv] + rest)[1..] == rest;
  }

  // ----------------------------------------------- What a conversion prints

  /** What a format of one conversion prints. */
  function Shown(fs: string, w: Option<nat>, p: Option<nat>, q: string, conv: char, a: Arg): string {
    Format("%" + SpecText(fs, w, p, q, conv, ""), [a], 0).text
  }

  predicate ValidSpec(fs: string, w: Option<nat>, q: string, conv: char) {
    AllFlags(fs) && (w.Some? ==> w.value > 0) && IsQualifierText(q) && IsConv(conv)
  }

  lemma FormatStep(fs: string, w: Option<nat>, p: Option<nat>, q: string, conv: char, rest: string,
                   a: Arg, args: seq<Arg>, done: nat)
    requires ValidSpec(fs, w, q, conv) && TakesArgument(conv) && conv != 'n'
    ensures var t := ConvText(SpecFor(fs, w, p, conv, rest, [a] + args));
            Format("%" + SpecText(fs, w, p, q, conv, rest), [a] + args, done)
            == Append(Output(t, []), Format(rest, args, done + |t|))
  {
    var f := "%" + SpecText(fs, w, p, q, conv, rest);
    assert f[1..] == SpecText(fs, w, p, q, conv, rest);
    SpecIsRead(fs, w, p, q, conv, rest, [a] + args);
    assert Next([a] + args) == args;
    hide SpecOf, ConvText, SpecText, Named;
    assert StepOf(f, [a] + args, done)
        == Step(ConvText(SpecFor(fs, w, p, conv, rest, [a] + args)), [], rest, args);
  }

  lemma ShownIs(fs: string, w: Option<nat>, p: Option<nat>, q: string, conv: char, a: Arg)
    requires ValidSpec(fs, w, q, conv) && TakesArgument(conv) && conv != 'n'
    ensures Shown(fs, w, p, q, conv, a) == ConvText(SpecFor(fs, w, p, conv, "", [a]))
  {
    FormatStep(fs, w, p, q, conv, "", a, [], 0);
    assert [a] + [] == [a];
    ConcatEmpty(ConvText(SpecFor(fs, w, p, conv, "", [a])));
    hide ConvText, SpecText;
  }

  lemma SameText(fs: string, w: Option<nat>, p: Option<nat>, conv: char, rest: string, a: Arg, args: seq<Arg>)
    ensures ConvText(SpecFor(fs, w, p, conv, rest, [a] + args)) == ConvText(SpecFor(fs, w, p, conv, "", [a]))
  {
    hide NumberText;
  }

  /** A conversion prints the same wherever it stands, takes one argument, and the rest of the
      format goes on behind it. */
  lemma ConversionIsLocal(fs: string, w: Option<nat>, p: Option<nat>, q: string, conv: char, rest: string,
                          a: Arg, args: seq<Arg>, done: nat)
    requires ValidSpec(fs, w, q, conv) && TakesArgument(conv) && conv != 'n'
    ensures var t := Shown(fs, w, p, q, conv, a);
            Format("%" + SpecText(fs, w, p, q, conv, rest), [a] + args, done)
            == Append(Output(t, []), Format(rest, args, done + |t|))
  {
    hide ConvText, SpecText, Shown, Format, SpecFor;
    FormatStep(fs, w, p, q, conv, rest, a, args, done);
    ShownIs(fs, w, p, q, conv, a);
    SameText(fs, w, p, conv, rest, a, args);
  }

  // --------------------------------------------------------- Number conversions

  /** %d, %i, %u, %o, %x, %X and %b. */
  predicate IsPlainNumberConv(conv: char) {
    conv == 'd' || conv == 'i' || conv == 'u' || conv == 'o' || conv == 'x' || conv == 'X' || conv == 'b'
  }

  predicate ShowsMinus(conv: char, n: uint32) {
    (conv == 'd' || conv == 'i') && n >= 0x8000_0000
  }

  /** The digits that a conversion shows. */
  function ShownDigits(conv: char, n: uint32): string {
    Numeral(if ShowsMinus(conv, n) then 0x1_0000_0000 - n else n,
            if conv == 'x' || conv == 'X' then 16 else if conv == 'o' then 8 else if conv == 'b' then 2 else 10,
            conv == 'x')
  }

  function ShownSign(fs: string, conv: char, n: uint32): string {
    if ShowsMinus(conv, n) then "-" else if '+' in fs then "+" else if ' ' in fs then " " else ""
  }

  function ShownPrefix(fs: string, conv: char): string {
    if '#' !in fs then ""
    else if conv == 'x' then "0x" else if conv == 'X' then "0X" else if conv == 'o' then "0" else ""
  }

  lemma NumberConvIs(fs: string, w: Option<nat>, p: Option<nat>, conv: char, n: uint32, ty: Flags)
    requires IsPlainNumberConv(conv)
    requires ty == Named(fs, NO_FLAGS).(sign := conv == 'd' || conv == 'i', small := conv == 'x')
    ensures ConvText(SpecFor(fs, w, p, conv, "", [Word(n)]))
         == NumberText(n, BaseOf(conv), if w.Some? then w.value else -1, if p.Some? then p.value else -1, ty)
    ensures TakesArgument(conv) && conv != 'n' && IsConv(conv)
  {
    hide NumberText;
  }

  lemma ShownNumber(n: uint32, base: nat, prec: int, ty: Flags)
    requires 2 <= base <= 36
    ensures var d := Numeral(if IsMinus(n, ty) then 0x1_0000_0000 - n else n, base, ty.small);
            NumberText(n, base, -1, prec, ty) ==
            (if IsMinus(n, ty) then "-" else if ty.plus then "+" else if ty.space then " " else "")
            + ((if ty.special && base == 16 then (if ty.small then "0x" else "0X")
                else if ty.special && base == 8 then "0" else "")
               + (Repeat('0', prec - |d|) + d))
  {
    hide NumberText, Numeral;
    if IsMinus(n, ty) {
      MinusColumn(n, base, prec, ty);
      BareText(0x1_0000_0000 - n, base, prec, ty.(sign := false, plus := false, space := false));
    } else {
      SignColumn(n, base, prec, ty);
      BareText(n, base, prec, ty.(plus := false, space := false));
    }
  }

  /** A number without a width: sign column, prefix, zeros up to the precision, digits. */
  lemma NumberShown(fs: string, p: Option<nat>, q: string, conv: char, n: uint32)
    requires AllFlags(fs) && IsQualifierText(q) && IsPlainNumberConv(conv)
    ensures var d := ShownDigits(conv, n);
            Shown(fs, None, p, q, conv, Word(n)) ==
            ShownSign(fs, conv, n)
            + (ShownPrefix(fs, conv) + (Repeat('0', (if p.Some? then p.value else -1) - |d|) + d))
  {
    hide NumberText, ConvText, Shown, Numeral;
    var ty := Named(fs, NO_FLAGS).(sign := conv == 'd' || conv == 'i', small := conv == 'x');
    NumberConvIs(fs, None, p, conv, n, ty);
    ShownIs(fs, None, p, q, conv, Word(n));
    ShownNumber(n, BaseOf(conv), if p.Some? then p.value else -1, ty);
  }

  lemma HeadIsShown(fs: string, conv: char, n: uint32, ty: Flags)
    requires IsPlainNumberConv(conv)
    requires ty == Named(fs, NO_FLAGS).(sign := conv == 'd' || conv == 'i', small := conv == 'x')
    ensures HeadLength(n, BaseOf(conv), ty) == |ShownSign(fs, conv, n) + ShownPrefix(fs, conv)|
    ensures 2 <= BaseOf(conv) <= 36 && ty.left == ('-' in fs) && ty.zeroPad == ('0' in fs)
  {}

  /** A width pads: behind the text with '-', with zeros between its head and its digits with
      '0', and in front of it with neither. */
  lemma NumberWidthShown(fs: string, w: nat, p: Option<nat>, q: string, conv: char, n: uint32)
    requires AllFlags(fs) && w > 0 && IsQualifierText(q) && IsPlainNumberConv(conv)
    ensures var t, k := Shown(fs, None, p, q, conv, Word(n)), |ShownSign(fs, conv, n) + ShownPrefix(fs, conv)|;
            && k <= |t|
            && Shown(fs, Some(w), p, q, conv, Word(n))
               == if '-' in fs then t + Repeat(' ', w - |t|)
                  else if '0' in fs then t[..k] + (Repeat('0', w - |t|) + t[k..])
                  else Repeat(' ', w - |t|) + t
  {
    hide NumberText, ConvText, Shown, Numeral, HeadLength, ShownSign, ShownPrefix, SpecFor;
    var ty := Named(fs, NO_FLAGS).(sign := conv == 'd' || conv == 'i', small := conv == 'x');
    HeadIsShown(fs, conv, n, ty);
    NumberConvIs(fs, None, p, conv, n, ty);
    NumberConvIs(fs, Some(w), p, conv, n, ty);
    ShownIs(fs, None, p, q, conv, Word(n));
    ShownIs(fs, Some(w), p, q, conv, Word(n));
    WidthPads(n, BaseOf(conv), w, if p.Some? then p.value else -1, ty);
  }

  /** %p is %X, with zeros up to eight digits when no width is given. */
  lemma PointerShown(fs: string, w: Option<nat>, p: Option<nat>, q: string, n: uint32)
    requires AllFlags(fs) && (w.Some? ==> w.value > 0) && IsQualifierText(q)
    ensures Shown(fs, w, p, q, 'p', Word(n))
         == if w.Some? then Shown(fs, w, p, q, 'X', Word(n)) else Shown(fs + "0", Some(8), p, q, 'X', Word(n))
  {
    hide NumberText, Shown;
    ShownIs(fs, w, p, q, 'p', Word(n));
    if w.Some? {
      ShownIs(fs, w, p, q, 'X', Word(n));
    } else {
      ShownIs(fs + "0", Some(8), p, q, 'X', Word(n));
    }
  }

  // ------------------------------------------------------- Words and characters

  /** %s shows its word, up to the precision; %c shows one character. */
  lemma TextShown(fs: string, p: Option<nat>, q: string, s: string, n: uint32)
    requires AllFlags(fs) && IsQualifierText(q)
    ensures Shown(fs, None, p, q, 's', Str(s)) == if p.Some? && p.value < |s| then s[..p.value] else s
    ensures Shown(fs, None, p, q, 'c', Word(n)) == [(n % 256) as char]
  {
    hide Shown;
    ShownIs(fs, None, p, q, 's', Str(s));
    ShownIs(fs, None, p, q, 'c', Word(n));
  }

  /** A width pads them with spaces, behind with '-' and in front without. */
  lemma TextWidthShown(fs: string, w: nat, p: Option<nat>, q: string, conv: char, a: Arg)
    requires AllFlags(fs) && w > 0 && IsQualifierText(q) && (conv == 's' || conv == 'c')
    ensures var t := Shown(fs, None, p, q, conv, a);
            Shown(fs, Some(w), p, q, conv, a)
            == if '-' in fs then t + Repeat(' ', w - |t|) else Repeat(' ', w - |t|) + t
  {
    hide Shown;
    ShownIs(fs, None, p, q, conv, a);
    ShownIs(fs, Some(w), p, q, conv, a);
  }

  // ------------------------------------------------------------ Everything else

  /** %n prints nothing and stores how many characters stand before it. */
  lemma CountShown(fs: string, w: Option<nat>, p: Option<nat>, q: string, rest: string,
                   a: Arg, args: seq<Arg>, done: nat)
    requires AllFlags(fs) && (w.Some? ==> w.value > 0) && IsQualifierText(q)
    ensures Format("%" + SpecText(fs, w, p, q, 'n', rest), [a] + args, done)
         == Append(Output("", [done]), Format(rest, args, done))
  {
    hide SpecOf, SpecText, AllFlags, IsQualifierText, Format;
    var f := "%" + SpecText(fs, w, p, q, 'n', rest);
    SpecIsRead(fs, w, p, q, 'n', rest, [a] + args);
    StepOfCount(f, SpecText(fs, w, p, q, 'n', rest), SpecFor(fs, w, p, 'n', rest, [a] + args), a, args, done);
    FormatUnfold(f, [a] + args, done, Step("", [done], rest, args));
  }

  lemma StepOfCount(f: string, t: string, p: Spec, a: Arg, args: seq<Arg>, done: nat)
    requires f == "%" + t && p == SpecOf(t, [a] + args) && p.conv == 'n' && p.args == [a] + args
    ensures CharAt(f, 0) != '\0' && StepOf(f, [a] + args, done) == Step("", [done], p.rest, args)
  {
    assert f[1..] == t && ([a] + args)[1..] == args;
    hide SpecOf;
  }

  /** Any other conversion character takes no argument and prints itself behind a '%', or alone
      when it is a '%'. */
  lemma OthersShown(fs: string, w: Option<nat>, p: Option<nat>, q: string, conv: char, rest: string,
                    args: seq<Arg>, done: nat)
    requires ValidSpec(fs, w, q, conv) && !IsPlainNumberConv(conv)
    requires conv != 'p' && conv != 's' && conv != 'c' && conv != 'n'
    ensures var t := if conv == '%' then "%" else ['%', conv];
            Format("%" + SpecText(fs, w, p, q, conv, rest), args, done)
            == Append(Output(t, []), Format(rest, args, done + |t|))
  {
    var f := "%" + SpecText(fs, w, p, q, conv, rest);
    var t := if conv == '%' then "%" else ['%', conv];
    assert f[1..] == SpecText(fs, w, p, q, conv, rest);
    SpecIsRead(fs, w, p, q, conv, rest, args);
    hide SpecOf, SpecText, Named;
    assert StepOf(f, args, done) == Step(t, [], rest, args);
  }

  /** A '*' for the width takes an argument, and is then printed as an unknown conversion. */
  lemma StarShown(fs: string, rest: string, a: Arg, args: seq<Arg>, done: nat)
    requires AllFlags(fs)
    ensures Format("%" + (fs + ("*" + rest)), [a] + args, done)
         == Append(Output("%*", []), Format(rest, args, done + 2))
  {
    var f, g := "%" + (fs + ("*" + rest)), "*" + rest;
    assert f[1..] == fs + g && g[1..] == rest;
    FlagsAreRead(fs, g, NO_FLAGS);
    assert Next([a] + args) == args;
    var p := SpecOf(f[1..], [a] + args);
    assert p.conv == '*' && p.rest == rest && p.args == args;
    hide SpecOf, FlagsOf, Named, AtoiOf;
    assert StepOf(f, [a] + args, done) == Step("%*", [], rest, args);
  }

  // --------------------------------------------------------- Decimal numbers

  /** A string of flags without a width; '0' and '-' do nothing there. */
  lemma PlainDecimal(fs: string, n: uint32)
    requires AllFlags(fs) && '+' !in fs && ' ' !in fs
    ensures Shown(fs, None, None, "", 'd', Word(n)) == Format("%" + fs + "d", [Word(n)], 0).text
    ensures Shown(fs, None, None, "", 'd', Word(n))
         == (if n >= 0x8000_0000 then "-" else "")
            + Numeral(if n >= 0x8000_0000 then 0x1_0000_0000 - n else n, 10, false)
  {
    hide Format, Numeral, AllFlags;
    NumberShown(fs, None, "", 'd', n);
    ConcatEmpty(ShownDigits('d', n));
    FieldText(fs, "", "d");
    assert "%" + SpecText(fs, None, None, "", 'd', "") == "%" + fs + "d";
  }

  lemma FieldText(fs: string, w: string, conv: string)
    ensures "%" + (fs + (w + ("" + ("" + (conv + ""))))) == "%" + fs + w + conv
  {}

  lemma Halves(sign: string, mid: string, digits: string)
    ensures (sign + digits)[..|sign|] == sign && (sign + digits)[|sign|..] == digits
    ensures (sign + digits)[..|sign|] + (mid + (sign + digits)[|sign|..]) == sign + (mid + digits)
  {}

  lemma HeadOfDecimal(fs: string, n: uint32)
    requires '+' !in fs && ' ' !in fs && '#' !in fs
    ensures ShownSign(fs, 'd', n) + ShownPrefix(fs, 'd') == if n >= 0x8000_0000 then "-" else ""
  {}

  /** '-' and '0' in any number and order. */
  predicate AreFieldFlags(fs: string) {
    AllFlags(fs) && '+' !in fs && ' ' !in fs && '#' !in fs
  }

  function Padded(left: bool, zero: bool, sign: string, digits: string, w: nat): string {
    var t := sign + digits;
    if left then t + Repeat(' ', w - |t|)
    else if zero then sign + (Repeat('0', w - |t|) + digits)
    else Repeat(' ', w - |t|) + t
  }

  lemma NothingPadded(left: bool, zero: bool, sign: string, digits: string)
    ensures Padded(left, zero, sign, digits, 0) == sign + digits
  {
    ConcatEmpty(sign + digits);
    ConcatEmpty(digits);
  }

  lemma NoWidth(fs: string, n: uint32)
    requires AreFieldFlags(fs)
    ensures Format("%" + fs + Numeral(0, 10, false) + "d", [Word(n)], 0).text
         == Shown(fs + "0", None, None, "", 'd', Word(n))
    ensures AreFieldFlags(fs + "0")
  {
    assert Numeral(0, 10, false) == "0" && "%" + fs + "0" == "%" + (fs + "0");
    hide Format, Numeral, Shown;
    PlainDecimal(fs + "0", n);
  }

  lemma ThreeFields()
    ensures AreFieldFlags("") && AreFieldFlags("-") && AreFieldFlags("0") && AllFlags("")
    ensures '-' !in "" && '0' !in "" && '-' in "-" && '-' !in "0" && '0' in "0" && '+' !in "" && ' ' !in ""
  {}

  lemma DecimalField(fs: string, n: uint32, w: nat, sign: string, digits: string)
    requires AreFieldFlags(fs) && sign == (if n >= 0x8000_0000 then "-" else "")
    requires digits == Numeral(if n >= 0x8000_0000 then 0x1_0000_0000 - n else n, 10, false)
    ensures Format("%" + fs + Numeral(w, 10, false) + "d", [Word(n)], 0).text
         == Padded('-' in fs, '0' in fs, sign, digits, w)
  {
    if w == 0 {
      hide Format, Numeral, Shown, Padded;
      NoWidth(fs, n);
      PlainDecimal(fs + "0", n);
      NothingPadded('-' in fs, '0' in fs, sign, digits);
    } else {
      hide Format, Numeral, Shown, ShownSign, ShownPrefix, AllFlags, IsFlag;
      PlainDecimal(fs, n);
      HeadOfDecimal(fs, n);
      NumberWidthShown(fs, w, None, "", 'd', n);
      WideIsShown(fs, n, w);
      Halves(sign, Repeat('0', w - |sign + digits|), digits);
    }
  }

  lemma WideIsShown(fs: string, n: uint32, w: nat)
    requires w > 0
    ensures Shown(fs, Some(w), None, "", 'd', Word(n))
         == Format("%" + fs + Numeral(w, 10, false) + "d", [Word(n)], 0).text
  {
    hide Format, Numeral;
    FieldText(fs, Numeral(w, 10, false), "d");
  }

  lemma LeftDecimal(n: uint32, w: nat, sign: string, digits: string)
    requires sign == (if n >= 0x8000_0000 then "-" else "")
    requires digits == Numeral(if n >= 0x8000_0000 then 0x1_0000_0000 - n else n, 10, false)
    ensures Format("%-" + Numeral(w, 10, false) + "d", [Word(n)], 0).text
         == sign + digits + Repeat(' ', w - |sign + digits|)
  {
    hide Format, Numeral, AreFieldFlags;
    ThreeFields();
    DecimalField("-", n, w, sign, digits);
    assert "%-" == "%" + "-";
  }

  lemma RightDecimal(n: uint32, w: nat, sign: string, digits: string)
    requires sign == (if n >= 0x8000_0000 then "-" else "")
    requires digits == Numeral(if n >= 0x8000_0000 then 0x1_0000_0000 - n else n, 10, false)
    ensures Format("%" + Numeral(w, 10, false) + "d", [Word(n)], 0).text
         == Repeat(' ', w - |sign + digits|) + (sign + digits)
  {
    hide Format, Numeral, AreFieldFlags;
    ThreeFields();
    DecimalField("", n, w, sign, digits);
    ConcatEmpty("%");
  }

  lemma ZeroDecimal(n: uint32, w: nat, sign: string, digits: string)
    requires sign == (if n >= 0x8000_0000 then "-" else "")
    requires digits == Numeral(if n >= 0x8000_0000 then 0x1_0000_0000 - n else n, 10, false)
    ensures Format("%0" + Numeral(w, 10, false) + "d", [Word(n)], 0).text
         == sign + (Repeat('0', w - |sign + digits|) + digits)
  {
    hide Format, Numeral, AreFieldFlags;
    ThreeFields();
    DecimalField("0", n, w, sign, digits);
    assert "%0" == "%" + "0";
  }

  lemma BareDecimal(n: uint32, sign: string, digits: string)
    requires sign == (if n >= 0x8000_0000 then "-" else "")
    requires digits == Numeral(if n >= 0x8000_0000 then 0x1_0000_0000 - n else n, 10, false)
    ensures Format("%d", [Word(n)], 0).text == sign + digits
  {
    hide Format, Numeral;
    PlainDecimal("", n);
    assert "%d" == "%" + "" + "d";
  }

  /** %d with and without a width, for every word and every width. */
  lemma DecimalFields(n: uint32, w: nat)
    ensures var sign := if n >= 0x8000_0000 then "-" else "";
            var digits := Numeral(if n >= 0x8000_0000 then 0x1_0000_0000 - n else n, 10, false);
            var t := sign + digits;
            && Format("%d", [Word(n)], 0).text == t
            && Format("%-" + Numeral(w, 10, false) + "d", [Word(n)], 0).text == t + Repeat(' ', w - |t|)
            && Format("%" + Numeral(w, 10, false) + "d", [Word(n)], 0).text == Repeat(' ', w - |t|) + t
            && Format("%0" + Numeral(w, 10, false) + "d", [Word(n)], 0).text
               == sign + (Repeat('0', w - |t|) + digits)
  {
    hide Format, Numeral, Repeat;
    var sign := if n >= 0x8000_0000 then "-" else "";
    var digits := Numeral(if n >= 0x8000_0000 then 0x1_0000_0000 - n else n, 10, false);
    BareDecimal(n, sign, digits);
    LeftDecimal(n, w, sign, digits);
    RightDecimal(n, w, sign, digits);
    ZeroDecimal(n, w, sign, digits);
  }
}
