/** Scanning what was printed: `_doscan` with the format that `vsprintf` printed with stores
    the printed arguments again. */
module FormatRoundTrip {
  import opened Numerals
  import opened Printf
  import opened Vsprintf
  import opened Strtol
  import opened Streams
  import opened Collect
  import opened ScanSpec
  import opened NumberRoundTrip

  /** A format, together with the arguments for its conversions. */
  datatype Piece =
    | Blank(c: char)
    | Plain(c: char)
    | Number(kind: char, w: uint32)
    | Letters(s: string)

  predicate IsAlnum(c: char) {
    DigitValue(c) < 36
  }

  predicate IsNumberKind(kind: char) {
    kind == 'd' || kind == 'i' || kind == 'u' || kind == 'o' || kind == 'X' || kind == 'b'
  }

  predicate ValidPiece(it: Piece) {
    match it
    case Blank(c) => IsSpace(c)
    case Plain(c) => !IsSpace(c) && c != '%' && c != '\0' && c as int < 128
    case Number(kind, _) => IsNumberKind(kind)
    case Letters(s) => 0 < |s| <= 0xffff && forall i :: 0 <= i < |s| ==> !IsSpace(s[i])
  }

  /** `next` may follow `it` without joining its text. White space separates everything; a
      literal that is no letter or digit ends a number. */
  predicate Separated(it: Piece, next: Piece) {
    match it
    case Number(_, _) => next.Blank? || (next.Plain? && !IsAlnum(next.c))
    case Letters(_) => next.Blank?
    case _ => true
  }

  predicate Valid(ps: seq<Piece>) {
    && (forall i :: 0 <= i < |ps| ==> ValidPiece(ps[i]))
    && (forall i :: 0 <= i < |ps| - 1 ==> Separated(ps[i], ps[i + 1]))
  }

  lemma ValidTail(ps: seq<Piece>)
    requires Valid(ps) && ps != []
    ensures Valid(ps[1..])
  {
    var t := ps[1..];
    assert forall i :: 0 <= i < |t| ==> t[i] == ps[i + 1];
  }

  function PieceFormat(it: Piece): string {
    match it
    case Blank(c) => [c]
    case Plain(c) => [c]
    case Number(kind, _) => ['%', kind]
    case Letters(_) => ['%', 's']
  }

  function PieceArgs(it: Piece): seq<Arg> {
    match it
    case Number(_, w) => [Arg.Word(w)]
    case Letters(s) => [Arg.Str(s)]
    case _ => []
  }

  /** What the arguments become when they are scanned. */
  function PieceStores(it: Piece): seq<Store> {
    match it
    case Number(_, w) => [IntStore(Int, w)]
    case Letters(s) => [TextStore(s)]
    case _ => []
  }

  function FormatOf(ps: seq<Piece>): string {
    if ps == [] then "" else PieceFormat(ps[0]) + FormatOf(ps[1..])
  }

  function ArgsOf(ps: seq<Piece>): seq<Arg> {
    if ps == [] then [] else PieceArgs(ps[0]) + ArgsOf(ps[1..])
  }

  function StoresOf(ps: seq<Piece>): seq<Store> {
    if ps == [] then [] else PieceStores(ps[0]) + StoresOf(ps[1..])
  }

  /** The text of one number without flags, width and precision. */
  function PlainNumber(kind: char, w: uint32): string
    requires IsNumberKind(kind)
  {
    NumberText(w, BaseOf(kind), -1, -1, NO_FLAGS.(sign := IsSignedKind(kind)))
  }

  function TextOfPiece(it: Piece): string
    requires ValidPiece(it)
  {
    match it
    case Blank(c) => [c]
    case Plain(c) => [c]
    case Number(kind, w) => PlainNumber(kind, w)
    case Letters(s) => s
  }

  function Printed(ps: seq<Piece>): string
    requires Valid(ps)
  {
    if ps == [] then ""
    else
      ValidTail(ps);
      TextOfPiece(ps[0]) + Printed(ps[1..])
  }

  // ----------------------------------------------------------------- Printing

  lemma SpecOfKind(kind: char, rest: string, args: seq<Arg>)
    requires IsNumberKind(kind) || kind == 's'
    ensures SpecOf([kind] + rest, args) == Spec(NO_FLAGS, -1, -1, kind, rest, args)
  {
    var f := [kind] + rest;
    assert f[1..] == rest;
    assert CharAt(f, 0) == kind;
  }

  /** A single character that is no '%' is printed as it stands. */
  lemma CharPrints(c: char, f: string, rest: string, args: seq<Arg>, done: nat)
    requires c != '%' && c != '\0' && f == [c] + rest
    ensures CharAt(f, 0) != '\0' && StepOf(f, args, done) == Step([c], [], rest, args)
  {
    assert f[1..] == rest;
  }

  /** A conversion takes the next argument and prints its text. */
  lemma ConversionPrints(kind: char, a: Arg, text: string, f: string, ap: seq<Arg>,
                         rest: string, args: seq<Arg>, done: nat)
    requires IsNumberKind(kind) || kind == 's'
    requires f == ['%', kind] + rest && ap == [a] + args
    requires text == ConvText(Spec(NO_FLAGS, -1, -1, kind, rest, ap))
    ensures CharAt(f, 0) != '\0' && StepOf(f, ap, done) == Step(text, [], rest, args)
  {
    assert f[1..] == [kind] + rest;
    assert ap[1..] == args;
    SpecOfKind(kind, rest, ap);
  }

  lemma NumberConvText(kind: char, w: uint32, rest: string, args: seq<Arg>)
    requires IsNumberKind(kind)
    ensures PlainNumber(kind, w) == ConvText(Spec(NO_FLAGS, -1, -1, kind, rest, [Arg.Word(w)] + args))
  {}

  lemma WordConvText(s: string, rest: string, args: seq<Arg>)
    ensures s == ConvText(Spec(NO_FLAGS, -1, -1, 's', rest, [Arg.Str(s)] + args))
  {
    ConcatEmpty(s);
  }

  lemma StepPrints(it: Piece, f: string, ap: seq<Arg>, rest: string, args: seq<Arg>, done: nat)
    requires ValidPiece(it) && f == PieceFormat(it) + rest && ap == PieceArgs(it) + args
    ensures CharAt(f, 0) != '\0' && StepOf(f, ap, done) == Step(TextOfPiece(it), [], rest, args)
  {
    match it
    case Blank(c) =>
      assert ap == args;
      CharPrints(c, f, rest, args, done);
    case Plain(c) =>
      assert ap == args;
      CharPrints(c, f, rest, args, done);
    case Number(kind, w) =>
      NumberConvText(kind, w, rest, args);
      ConversionPrints(kind, Arg.Word(w), PlainNumber(kind, w), f, ap, rest, args, done);
    case Letters(s) =>
      WordConvText(s, rest, args);
      ConversionPrints('s', Arg.Str(s), s, f, ap, rest, args, done);
  }

  lemma OutputCons(a: string, b: string)
    ensures Append(Output(a, []), Output(b, [])) == Output(a + b, [])
  {}

  /** `vsprintf` prints the pieces one after the other. */
  lemma {:induction false} FormatPrints(ps: seq<Piece>, f: string, args: seq<Arg>, done: nat)
    requires Valid(ps) && f == FormatOf(ps) && args == ArgsOf(ps)
    ensures Format(f, args, done) == Output(Printed(ps), [])
    decreases |ps|
  {
    hide StepOf, TextOfPiece, PieceFormat, PieceArgs;
    if ps != [] {
      ValidTail(ps);
      var text := TextOfPiece(ps[0]);
      StepPrints(ps[0], f, args, FormatOf(ps[1..]), ArgsOf(ps[1..]), done);
      FormatUnfold(f, args, done, Step(text, [], FormatOf(ps[1..]), ArgsOf(ps[1..])));
      FormatPrints(ps[1..], FormatOf(ps[1..]), ArgsOf(ps[1..]), done + |text|);
      OutputCons(text, Printed(ps[1..]));
    }
  }

  // ------------------------------------------------- Scanning one number back

  function MinusOf(kind: char, w: uint32): string {
    if IsSignedKind(kind) && IsNegative(w) then "-" else ""
  }

  /** The digits of a plain number: at most 32, upper case, without a leading zero. */
  function DigitsOf(kind: char, w: uint32): string
    requires IsNumberKind(kind)
  {
    Numeral(Magnitude(w, NO_FLAGS.(sign := IsSignedKind(kind))), BaseOf(kind), false)
  }

  lemma PlainNumberIs(kind: char, w: uint32)
    requires IsNumberKind(kind)
    ensures PlainNumber(kind, w) == MinusOf(kind, w) + DigitsOf(kind, w)
    ensures PlainNumber(kind, w) != ""
  {
    ConcatEmpty(MinusOf(kind, w));
    ConcatEmpty(DigitsOf(kind, w));
    ConcatEmpty(MinusOf(kind, w) + DigitsOf(kind, w));
  }

  lemma DigitsFacts(kind: char, w: uint32, d: string)
    requires IsNumberKind(kind) && d == DigitsOf(kind, w)
    ensures 1 <= |d| <= 32
    ensures forall i :: 0 <= i < |d| ==>
              IsScanDigit(d[i], BaseOf(kind)) && !IsX(d[i]) && !IsSign(d[i]) && !IsSpace(d[i])
    ensures d[0] == '0' ==> d == "0"
  {
    var m := Magnitude(w, NO_FLAGS.(sign := IsSignedKind(kind)));
    NumeralDigits(m, BaseOf(kind), false);
    NumeralLength(m, BaseOf(kind), false, 32) by { Pow2Of32(); }
  }

  lemma ScanRunIs(s: string, base: nat, limit: nat, n: nat)
    requires n < limit && n <= |s|
    requires forall i :: 0 <= i < n ==> IsScanDigit(s[i], base)
    requires n < |s| ==> !IsScanDigit(s[n], base)
    ensures ScanRun(s, base, limit) == n
  {}

  predicate Ends(tail: string) {
    tail == "" || !IsAlnum(tail[0])
  }

  lemma EndsIsNoDigit(c: char, base: nat)
    requires !IsAlnum(c)
    ensures !IsScanDigit(c, base) && !IsX(c)
  {}

  lemma TextAt(minus: string, d: string, tail: string, s: string)
    requires (minus == "" || minus == "-") && s == minus + (d + tail) && d != "" && !IsSign(d[0])
    ensures s[|minus|..] == d + tail
    ensures |minus| == if IsSign(CharAt(s, 0)) then 1 else 0
    ensures CharAt(s, |minus|) == d[0] && CharAt(s, |minus| + 1) == CharAt(d + tail, 1)
  {}

  /** A text that starts with a zero that is no 0x. */
  lemma ReachOfZero(kind: char, s: string, n: nat)
    requires IsNumberKind(kind) && InitialBase(kind) == 16
    requires n == (if IsSign(CharAt(s, 0)) then 1 else 0)
    requires CharAt(s, n) == '0' && !IsX(CharAt(s, n + 1))
    ensures LengthOf(kind, s, NUMLEN)
         == n + 1 + ScanRun(s[n + 1..], if kind == 'i' then 8 else 16, NUMLEN - n - 1)
  {}

  /** A text that does not start with a zero, or whose kind knows no prefix. */
  lemma ReachOfDigits(kind: char, s: string, n: nat)
    requires IsNumberKind(kind)
    requires n == (if IsSign(CharAt(s, 0)) then 1 else 0) <= |s|
    requires InitialBase(kind) == 16 ==> CharAt(s, n) != '0'
    ensures LengthOf(kind, s, NUMLEN) == n + ScanRun(s[n..], BaseOf(kind), NUMLEN - n)
  {}

  lemma CollectsZero(kind: char, s: string, n: nat, tail: string)
    requires IsNumberKind(kind) && InitialBase(kind) == 16 && Ends(tail)
    requires n == (if IsSign(CharAt(s, 0)) then 1 else 0) < |s|
    requires CharAt(s, n) == '0' && s[n + 1..] == tail
    ensures LengthOf(kind, s, NUMLEN) == n + 1
  {
    assert CharAt(s, n + 1) == CharAt(tail, 0);
    if tail != "" {
      EndsIsNoDigit(tail[0], if kind == 'i' then 8 else 16);
    }
    ReachOfZero(kind, s, n);
    ScanRunIs(tail, if kind == 'i' then 8 else 16, NUMLEN - n - 1, 0);
  }

  lemma CollectsRun(kind: char, s: string, n: nat, d: string, tail: string)
    requires IsNumberKind(kind) && Ends(tail)
    requires n == (if IsSign(CharAt(s, 0)) then 1 else 0) <= |s| && s[n..] == d + tail
    requires InitialBase(kind) == 16 ==> CharAt(s, n) != '0'
    requires |d| <= 32 && forall i :: 0 <= i < |d| ==> IsScanDigit(d[i], BaseOf(kind))
    ensures LengthOf(kind, s, NUMLEN) == n + |d|
  {
    if tail != "" {
      EndsIsNoDigit(tail[0], BaseOf(kind));
    }
    ReachOfDigits(kind, s, n);
    ScanRunIs(d + tail, BaseOf(kind), NUMLEN - n, |d|);
  }

  /** `o_collect` takes the digits after the sign, and nothing of what follows. */
  lemma CollectsDigits(kind: char, d: string, tail: string, minus: string, s: string)
    requires IsNumberKind(kind) && (minus == "" || minus == "-") && s == minus + (d + tail)
    requires 1 <= |d| <= 32 && !IsSign(d[0])
    requires forall i :: 0 <= i < |d| ==> IsScanDigit(d[i], BaseOf(kind))
    requires (d[0] == '0' ==> |d| == 1) && Ends(tail)
    ensures LengthOf(kind, s, NUMLEN) == |minus| + |d|
  {
    TextAt(minus, d, tail, s);
    if InitialBase(kind) == 16 && d[0] == '0' {
      assert s[|minus| + 1..] == tail;
      CollectsZero(kind, s, |minus|, tail);
    } else {
      CollectsRun(kind, s, |minus|, d, tail);
    }
  }

  lemma NumberIsCollected(kind: char, w: uint32, tail: string, s: string)
    requires IsNumberKind(kind) && Ends(tail) && s == PlainNumber(kind, w) + tail
    ensures LengthOf(kind, s, NUMLEN) == |PlainNumber(kind, w)|
    ensures !BareSign(PlainNumber(kind, w)) && !IsSpace(s[0])
  {
    var minus, d := MinusOf(kind, w), DigitsOf(kind, w);
    PlainNumberIs(kind, w);
    DigitsFacts(kind, w, d);
    ConcatAssoc(minus, d, tail);
    CollectsDigits(kind, d, tail, minus, s);
  }

  /** A %i prints decimal and scans with base 0, which is decimal again unless the text
      starts with a zero, and then the number is zero. */
  lemma GeneralIntegerMagnitude(t: string, minus: string, d: string)
    requires t == minus + (d + "") && (minus == "" || minus == "-")
    requires |d| >= 1 && !IsSign(d[0]) && !IsSpace(d[0]) && (d[0] == '0' ==> d == "0")
    ensures MagnitudeOf(t, 0) == MagnitudeOf(t, 10) && SubjectOf(t, 0).neg == SubjectOf(t, 10).neg
  {
    TextAt(minus, d, "", t);
    SpaceRunIs(t, 0);
    SubjectsAgree(t, |minus|);
    hide SubjectOf, SpaceRun, Value, MagnitudeOf;
    if d[0] == '0' {
      ZeroMagnitude(t, |minus|);
    } else {
      SameMagnitude(t);
    }
  }

  lemma SubjectsAgree(t: string, n: nat)
    requires n <= |t| && SpaceRun(t) == 0 && n == if IsSign(CharAt(t, 0)) then 1 else 0
    ensures SubjectOf(t, 0).neg == SubjectOf(t, 10).neg
    ensures CharAt(t, n) != '0' ==> SubjectOf(t, 0) == SubjectOf(t, 10)
  {
    hide SpaceRun;
  }

  lemma SameMagnitude(t: string)
    requires SubjectOf(t, 0) == SubjectOf(t, 10)
    ensures MagnitudeOf(t, 0) == MagnitudeOf(t, 10)
  {
    hide SubjectOf, DigitRun, Value;
  }

  lemma ZeroMagnitude(t: string, n: nat)
    requires n <= |t| && t[n..] == "0" && SpaceRun(t) == 0
    requires n == if IsSign(CharAt(t, 0)) then 1 else 0
    ensures MagnitudeOf(t, 0) == 0 == MagnitudeOf(t, 10)
  {
    assert t[n..][0] == t[n];
    ZeroSubject(t, n, 0);
    ZeroSubject(t, n, 10);
    ValueOfZero();
    assert t[n + 1..] == "" && t[n..n + 1] == "0";
    hide Value, SubjectOf, EndOf, SpaceRun;
  }

  lemma ZeroSubject(t: string, n: nat, base: nat)
    requires n + 1 == |t| && t[n] == '0' && SpaceRun(t) == 0 && (base == 0 || base == 10)
    requires n == if IsSign(CharAt(t, 0)) then 1 else 0
    ensures SubjectOf(t, base).from == (if base == 0 then n + 1 else n) && EndOf(t, base) == n + 1
  {
    hide Value;
    var from := if base == 0 then n + 1 else n;
    DigitRunIs(t[from..], if base == 0 then 8 else 10, n + 1 - from);
  }

  lemma ValueOfZero()
    ensures Value("", 8) == 0 == Value("0", 10)
  {
    ValueAppend("", '0', 10);
    assert "" + ['0'] == "0";
  }

  lemma PlainScansBack(kind: char, w: uint32)
    requires IsNumberKind(kind)
    ensures Scanned(PlainNumber(kind, w), BaseOf(kind), IsSignedKind(kind)) == w
  {
    NumberScansBack(w, BaseOf(kind), -1, -1, NO_FLAGS.(sign := IsSignedKind(kind)), BaseOf(kind));
  }

  lemma GeneralScans(t: string)
    requires MagnitudeOf(t, 0) == MagnitudeOf(t, 10) && SubjectOf(t, 0).neg == SubjectOf(t, 10).neg
    ensures Scanned(t, 0, true) == Scanned(t, 10, true)
  {}

  /** A %i scans its text with base 0. */
  lemma GeneralIsConverted(w: uint32, t: string)
    requires t == PlainNumber('i', w)
    ensures Scanned(t, 0, true) == Scanned(t, 10, true)
  {
    var minus, d := MinusOf('i', w), DigitsOf('i', w);
    PlainNumberIs('i', w);
    DigitsFacts('i', w, d);
    ConcatEmpty(d);
    GeneralIntegerMagnitude(t, minus, d);
    GeneralScans(t);
  }

  lemma NumberIsConverted(kind: char, w: uint32)
    requires IsNumberKind(kind)
    ensures Scanned(PlainNumber(kind, w), BaseFor(kind), IsSignedKind(kind)) == w
  {
    PlainScansBack(kind, w);
    if kind == 'i' {
      GeneralIsConverted(w, PlainNumber('i', w));
    }
  }

  // --------------------------------------------------- Scanning the pieces back

  lemma DirectiveOfKind(kind: char, rest: string, f: string)
    requires (IsIntKind(kind) || kind == 's') && f == [kind] + rest
    ensures DirectiveOf(f) == Directive(false, false, 0, Int, f)
    ensures f[1..] == rest
  {}

  /** A word or a number at the start of the remaining input is converted as such. */
  lemma ItemIsConversion(inp: string, st: State, kind: char, rest: string)
    requires (IsIntKind(kind) || kind == 's') && st.f == ['%', kind] + rest
    requires st.pos < |inp| && !IsSpace(inp[st.pos])
    ensures ([kind] + rest)[1..] == rest
    ensures Item(inp, st) == Conversion(inp, st, Directive(false, false, 0, Int, [kind] + rest))
  {
    hide Conversion, DirectiveOf;
    assert st.f[1..] == [kind] + rest && CharAt(st.f, 1) == kind;
    DirectiveOfKind(kind, rest, [kind] + rest);
    assert inp[st.pos..][0] == inp[st.pos];
    SpaceRunIs(inp[st.pos..], 0);
    assert st.(pos := st.pos) == st;
  }

  lemma PieceOfInput(inp: string, pos: nat, t: string, tail: string)
    requires pos <= |inp| && inp[pos..] == t + tail
    ensures pos + |t| <= |inp| && inp[pos..pos + |t|] == t && inp[pos + |t|..] == tail
    ensures t != "" ==> inp[pos] == inp[pos..][0]
  {
    assert inp[pos..][..|t|] == inp[pos..pos + |t|];
    assert inp[pos..][|t|..] == inp[pos + |t|..];
  }

  lemma ItemScansNumber(inp: string, st: State, kind: char, w: uint32, rest: string, tail: string, t: string)
    requires IsNumberKind(kind) && st.f == ['%', kind] + rest && st.pos <= |inp|
    requires t == PlainNumber(kind, w) && inp[st.pos..] == t + tail && Ends(tail)
    ensures Item(inp, st) == Go(State(rest, st.pos + |t|, st.done + 1, st.conv + 1,
                                      At(inp, st.pos), st.stores + [IntStore(Int, w)], st.over))
  {
    hide PlainNumber, LengthOf, Ends, Item, Conversion, IntOutcome, IntValue;
    var s, f := inp[st.pos..], [kind] + rest;
    PlainNumberIs(kind, w);
    NumberIsCollected(kind, w, tail, s);
    PieceOfInput(inp, st.pos, t, tail);
    ItemIsConversion(inp, st, kind, rest);
    var d := Directive(false, false, 0, Int, f);
    NumberOutcome(inp, st, d, t);
    IntValueIs(kind, w, d);
    NumberIsStored(st, d, t, w, rest, At(inp, st.pos));
  }

  lemma NumberOutcome(inp: string, st: State, d: Directive, t: string)
    requires IsIntKind(d.Kind()) && st.pos < |inp| && !d.widthSpec
    requires |t| == LengthOf(d.Kind(), inp[st.pos..], NUMLEN) && t == inp[st.pos..st.pos + |t|]
    ensures Conversion(inp, st, d) == IntOutcome(st, d, t, At(inp, st.pos))
  {
    hide IntValue;
    IntUnfold(inp, st, d, |t|);
  }

  lemma IntValueIs(kind: char, w: uint32, d: Directive)
    requires IsNumberKind(kind) && d.Kind() == kind && d.size == Int
    ensures IntValue(d, PlainNumber(kind, w)) == w
  {
    NumberIsConverted(kind, w);
  }

  /** A number that has been collected whole is stored. */
  lemma NumberIsStored(st: State, d: Directive, t: string, w: uint32, rest: string, ic: Input)
    requires d.rest != "" && d.rest[1..] == rest && !d.noAssign && d.size == Int
    requires t != "" && !BareSign(t) && IntValue(d, t) == w
    ensures IntOutcome(st, d, t, ic)
         == Go(State(rest, st.pos + |t|, st.done + 1, st.conv + 1, ic, st.stores + [IntStore(Int, w)], st.over))
  {}

  lemma {:induction false} ClassRunIs(s: string, cl: Class, limit: nat, n: nat)
    requires n <= limit && n <= |s| && forall i :: 0 <= i < n ==> Has(cl, s[i])
    requires n < |s| ==> !Has(cl, s[n])
    ensures ClassRun(s, cl, limit) == n
    decreases n
  {
    if n > 0 {
      ClassRunIs(s[1..], cl, limit - 1, n - 1);
    }
  }

  lemma WordConversion(inp: string, st: State, w: string, rest: string, d: Directive)
    requires st.pos < |inp| && st.pos + |w| <= |inp| && inp[st.pos..st.pos + |w|] == w
    requires d == Directive(false, false, 0, Int, ['s'] + rest) && ClassRun(inp[st.pos..], NonSpace, 0xffff) == |w| > 0
    ensures Conversion(inp, st, d)
         == Go(State(rest, st.pos + |w|, st.done + 1, st.conv + 1,
                     if |w| == 0xffff then At(inp, st.pos + |w| - 1) else At(inp, st.pos + |w|),
                     st.stores + [TextStore(w)], st.over))
  {
    assert (['s'] + rest)[1..] == rest;
    assert Conversion(inp, st, d) == FieldConversion(inp, st, d, NonSpace, 0xffff, rest);
  }

  lemma ItemScansWord(inp: string, st: State, w: string, rest: string, tail: string, ic: Input)
    requires ValidPiece(Letters(w)) && st.f == ['%', 's'] + rest && st.pos <= |inp|
    requires inp[st.pos..] == w + tail && (tail == "" || IsSpace(tail[0]))
    requires ic == if |w| == 0xffff then At(inp, st.pos + |w| - 1) else At(inp, st.pos + |w|)
    ensures Item(inp, st) ==
            Go(State(rest, st.pos + |w|, st.done + 1, st.conv + 1, ic, st.stores + [TextStore(w)], st.over))
  {
    var s := inp[st.pos..];
    assert s[0] == inp[st.pos];
    assert inp[st.pos..st.pos + |w|] == s[..|w|] == w;
    ClassRunIs(s, NonSpace, 0xffff, |w|);
    ItemIsConversion(inp, st, 's', rest);
    WordConversion(inp, st, w, rest, Directive(false, false, 0, Int, ['s'] + rest));
  }

  lemma ItemScansPlain(inp: string, st: State, c: char, rest: string, tail: string)
    requires ValidPiece(Plain(c)) && st.f == [c] + rest && st.pos <= |inp|
    requires inp[st.pos..] == [c] + tail
    ensures Item(inp, st) == Go(st.(f := rest, pos := st.pos + 1, ic := Ch(c)))
  {
    assert inp[st.pos] == inp[st.pos..][0] && st.f[1..] == rest;
  }

  function Strip(ps: seq<Piece>): seq<Piece> {
    if ps != [] && ps[0].Blank? then Strip(ps[1..]) else ps
  }

  lemma SpaceRunCons(c: char, s: string)
    requires IsSpace(c)
    ensures SpaceRun([c] + s) == 1 + SpaceRun(s)
    ensures ([c] + s)[1 + SpaceRun(s)..] == s[SpaceRun(s)..]
  {
    assert ([c] + s)[1..] == s;
  }

  lemma HeadIsNoSpace(ps: seq<Piece>)
    requires Valid(ps) && (ps == [] || !ps[0].Blank?)
    ensures SpaceRun(FormatOf(ps)) == 0 == SpaceRun(Printed(ps))
  {
    if ps != [] && ps[0].Number? {
      var it := ps[0];
      PlainNumberIs(it.kind, it.w);
      NumberIsCollected(it.kind, it.w, "", PlainNumber(it.kind, it.w) + "");
    }
  }

  /** White space of the format and of the text are skipped together. */
  lemma {:induction false} StripFacts(ps: seq<Piece>)
    requires Valid(ps)
    ensures Valid(Strip(ps)) && |Strip(ps)| <= |ps|
    ensures Strip(ps) == [] || !Strip(ps)[0].Blank?
    ensures FormatOf(ps)[SpaceRun(FormatOf(ps))..] == FormatOf(Strip(ps))
    ensures Printed(ps)[SpaceRun(Printed(ps))..] == Printed(Strip(ps))
    ensures StoresOf(ps) == StoresOf(Strip(ps))
    decreases |ps|
  {
    if ps != [] && ps[0].Blank? {
      ValidTail(ps);
      StripFacts(ps[1..]);
      SpaceRunCons(ps[0].c, FormatOf(ps[1..]));
      SpaceRunCons(ps[0].c, Printed(ps[1..]));
    } else {
      HeadIsNoSpace(ps);
    }
  }

  lemma BothSkipped(inp: string, st: State, rest: seq<Piece>, text: string)
    requires Valid(rest) && st.pos <= |inp| && inp[st.pos..] == text
    requires st.f[SpaceRun(st.f)..] == FormatOf(rest) && text[SpaceRun(text)..] == Printed(rest)
    ensures SkipBlanks(inp, st).f == FormatOf(rest) && inp[SkipBlanks(inp, st).pos..] == Printed(rest)
  {
    hide FormatOf, Printed, Valid, SpaceRun;
    assert text[SpaceRun(text)..] == inp[st.pos + SpaceRun(text)..];
  }

  /** The state behind the white space. */
  lemma TurnSkips(inp: string, st: State, ps: seq<Piece>, rest: seq<Piece>, st1: State)
    requires Valid(ps) && rest == Strip(ps) && Valid(rest)
    requires st.f == FormatOf(ps) && st.pos <= |inp| && inp[st.pos..] == Printed(ps)
    requires st1 == Skipped(inp, st)
    ensures st1.f == FormatOf(rest) && inp[st1.pos..] == Printed(rest)
    ensures st1.done == st.done && st1.conv == st.conv && st1.stores == st.stores
  {
    if IsSpace(CharAt(st.f, 0)) {
      StripFacts(ps);
      BothSkipped(inp, st, rest, Printed(ps));
    } else {
      NoBlank(ps);
    }
  }

  lemma NoBlank(ps: seq<Piece>)
    requires Valid(ps) && !IsSpace(CharAt(FormatOf(ps), 0))
    ensures Strip(ps) == ps
  {
  }

  /** What follows a piece ends its text. */
  lemma TailEnds(ps: seq<Piece>)
    requires Valid(ps) && |ps| >= 1
    ensures Valid(ps[1..])
    ensures var tail := Printed(ps[1..]);
            && (ps[0].Number? ==> Ends(tail))
            && (ps[0].Letters? ==> tail == "" || IsSpace(tail[0]))
  {
    ValidTail(ps);
    if |ps| > 1 {
      assert Separated(ps[0], ps[1]);
    }
  }

  lemma HeadOf(ps: seq<Piece>)
    requires Valid(ps) && |ps| >= 1
    ensures Valid(ps[1..]) && ValidPiece(ps[0])
    ensures FormatOf(ps) == PieceFormat(ps[0]) + FormatOf(ps[1..])
    ensures Printed(ps) == TextOfPiece(ps[0]) + Printed(ps[1..])
  {
    ValidTail(ps);
    hide PlainNumber;
  }

  function Count(ps: seq<Piece>): nat {
    |StoresOf(ps)|
  }

  /** Scanning one piece takes exactly its text, and stores its argument. */
  lemma ScanPiece(inp: string, st: State, ps: seq<Piece>) returns (st1: State)
    requires Valid(ps) && ps != [] && !ps[0].Blank?
    requires st.f == FormatOf(ps) && st.pos <= |inp| && inp[st.pos..] == Printed(ps)
    ensures Valid(ps[1..]) && Item(inp, st) == Go(st1)
    ensures st1.f == FormatOf(ps[1..]) && st1.pos <= |inp| && inp[st1.pos..] == Printed(ps[1..])
    ensures st1.stores == st.stores + PieceStores(ps[0])
    ensures st1.done == st.done + |PieceStores(ps[0])| && st1.conv == st.conv + |PieceStores(ps[0])|
    ensures ps[0].Plain? ==> st1.ic != EOF
  {
    hide Item, Ends, PlainNumber, Valid, FormatOf, Printed;
    TailEnds(ps);
    HeadOf(ps);
    var rest, tail := FormatOf(ps[1..]), Printed(ps[1..]);
    var text := TextOfPiece(ps[0]);
    assert inp[st.pos..][|text|..] == inp[st.pos + |text|..] == tail;
    match ps[0]
    case Plain(c) =>
      ItemScansPlain(inp, st, c, rest, tail);
      st1 := st.(f := rest, pos := st.pos + 1, ic := Ch(c));
    case Number(kind, w) =>
      ItemScansNumber(inp, st, kind, w, rest, tail, text);
      st1 := State(rest, st.pos + |text|, st.done + 1, st.conv + 1, At(inp, st.pos),
                   st.stores + [IntStore(Int, w)], st.over);
    case Letters(w) =>
      var ic := if |w| == 0xffff then At(inp, st.pos + |w| - 1) else At(inp, st.pos + |w|);
      ItemScansWord(inp, st, w, rest, tail, ic);
      st1 := State(rest, st.pos + |w|, st.done + 1, st.conv + 1, ic, st.stores + [TextStore(w)], st.over);
  }

  /** A printed number has at most 33 characters, so it leaves room in the number buffer. */
  lemma NumberLeavesRoom(inp: string, pos: nat, kind: char, w: uint32, rest: string, tail: string, f: string)
    requires IsNumberKind(kind) && f == ['%', kind] + rest && pos <= |inp|
    requires inp[pos..] == PlainNumber(kind, w) + tail && Ends(tail)
    ensures NumberFits(inp, FirstOf(inp, pos, kind), DirectiveOf(f[1..])) && DirectiveOf(f[1..]).Kind() == kind
  {
    assert f[1..] == [kind] + rest;
    DirectiveOfKind(kind, rest, f[1..]);
    NumberIsCollected(kind, w, tail, inp[pos..]);
    PlainNumberIsShort(kind, w);
    hide LengthOf, PlainNumber, Ends, DirectiveOf;
    assert inp[pos..][0] == inp[pos];
    SpaceRunIs(inp[pos..], 0);
  }

  lemma PlainNumberIsShort(kind: char, w: uint32)
    requires IsNumberKind(kind)
    ensures 1 <= |PlainNumber(kind, w)| <= 33
  {
    PlainNumberIs(kind, w);
    DigitsFacts(kind, w, DigitsOf(kind, w));
    hide PlainNumber, DigitsOf;
  }

  lemma PieceFits(inp: string, st: State, ps: seq<Piece>)
    requires Valid(ps) && ps != [] && !ps[0].Blank?
    requires st.f == FormatOf(ps) && st.pos <= |inp| && inp[st.pos..] == Printed(ps)
    ensures ItemFits(inp, st)
  {
    hide Ends, PlainNumber, NumberFits, FirstOf, Valid, FormatOf, Printed;
    TailEnds(ps);
    HeadOf(ps);
    var rest, tail := FormatOf(ps[1..]), Printed(ps[1..]);
    match ps[0]
    case Plain(c) =>
    case Number(kind, w) => NumberLeavesRoom(inp, st.pos, kind, w, rest, tail, st.f);
    case Letters(w) =>
      assert st.f[1..] == ['s'] + rest;
      DirectiveOfKind('s', rest, st.f[1..]);
      WordFits(inp, FirstOf(inp, st.pos, 's'), DirectiveOf(st.f[1..]));
  }

  lemma WordFits(inp: string, pos: nat, d: Directive)
    requires pos <= |inp| && d.Kind() == 's'
    ensures NumberFits(inp, pos, d)
  {}

  lemma RunGoesOn(inp: string, st: State, st1: State, st2: State)
    requires st.pos <= |inp| && st1 == Skipped(inp, st)
    requires Item(inp, st1) == Go(st2)
    ensures st2.pos <= |inp| && Run(inp, st) == Run(inp, st2)
    ensures ItemFits(inp, st1) && RunFits(inp, st2) ==> RunFits(inp, st)
  {
    hide Item, ItemFits;
    assert Turn(inp, st) == Go(st2);
  }

  lemma RunEnds(inp: string, st: State, st1: State)
    requires st.pos <= |inp| && st1 == Skipped(inp, st)
    requires st1.f == ""
    ensures Run(inp, st) == Final(st1) && RunFits(inp, st)
  {
    hide Directed, Literal, NumberFits;
    assert Turn(inp, st) == Stop(Final(st1));
  }

  ghost predicate ScannedAs(r: Result, inp: string, conv: nat, done: nat, stores: seq<Store>, ps: seq<Piece>) {
    && r.stores == stores + StoresOf(ps)
    && r.pos == |inp|
    && (conv + Count(ps) > 0 ==> r.ret == done + Count(ps))
  }

  lemma ScannedCons(r: Result, inp: string, conv: nat, done: nat, stores: seq<Store>, ps: seq<Piece>)
    requires ps != []
    requires var k := PieceStores(ps[0]);
             ScannedAs(r, inp, conv + |k|, done + |k|, stores + k, ps[1..])
    ensures ScannedAs(r, inp, conv, done, stores, ps)
  {
    var k := PieceStores(ps[0]);
    assert (stores + k) + StoresOf(ps[1..]) == stores + (k + StoresOf(ps[1..]));
  }

  lemma EndIsScanned(inp: string, st: State)
    requires st.pos <= |inp| && inp[st.pos..] == ""
    ensures ScannedAs(Final(st), inp, st.conv, st.done, st.stores, [])
  {
    assert st.stores + [] == st.stores;
  }

  /** The whole loop on the printed text. */
  lemma {:induction false} ScanPieces(inp: string, st: State, ps: seq<Piece>) returns (r: Result)
    requires Valid(ps)
    requires st.f == FormatOf(ps) && st.pos <= |inp| && inp[st.pos..] == Printed(ps)
    ensures r == Run(inp, st) && ScannedAs(r, inp, st.conv, st.done, st.stores, ps) && RunFits(inp, st)
    decreases |ps|
  {
    hide Turn, ItemFits, Item, Run, RunFits;
    StripFacts(ps);
    var rest := Strip(ps);
    var st1 := Skipped(inp, st);
    TurnSkips(inp, st, ps, rest, st1);
    if rest == [] {
      RunEnds(inp, st, st1);
      EndIsScanned(inp, st1);
      r := Final(st1);
    } else {
      PieceFits(inp, st1, rest);
      var st2 := ScanPiece(inp, st1, rest);
      RunGoesOn(inp, st, st1, st2);
      r := ScanPieces(inp, st2, rest[1..]);
      ScannedCons(r, inp, st.conv, st.done, st.stores, rest);
    }
  }

  /** Print and scan are inverse at the level of formats: for every format of %d %i %u %o %X
      %b and %s conversions, literals and white space that keeps them apart, and for all
      32-bit arguments and words, `_doscan` on the output of `vsprintf` stores exactly the
      arguments, reads the whole output and returns their number. (Without a conversion it
      returns 0 or EOF.) */
  lemma PrintThenScan(ps: seq<Piece>)
    requires Valid(ps)
    ensures var text := Format(FormatOf(ps), ArgsOf(ps), 0).text;
            && Scan(text, FormatOf(ps)).stores == StoresOf(ps) && Scan(text, FormatOf(ps)).pos == |text|
            && (Count(ps) > 0 ==> Scan(text, FormatOf(ps)).ret == Count(ps))
            && ScanFits(text, FormatOf(ps))
  {
    FormatPrints(ps, FormatOf(ps), ArgsOf(ps), 0);
    var st := Initial(FormatOf(ps));
    assert Printed(ps)[0..] == Printed(ps);
    var r := ScanPieces(Printed(ps), st, ps);
    assert [] + StoresOf(ps) == StoresOf(ps);
  }
}
