/** `vsprintf` of src/printf.c:142-298: the format interpreter around `number`.

    A `const char *` that walks through the format is modelled as the suffix it points at,
    so `++format` drops one character. The variable arguments are a sequence of 32-bit words
    and strings; an argument that is missing or of the wrong kind, to which C gives no
    meaning, reads as zero or as the empty string. */
module Vsprintf {
  import opened Numerals
  import opened Printf

  datatype Arg = Word(w: uint32) | Str(text: string)

  function WordOf(args: seq<Arg>): uint32 {
    if args != [] && args[0].Word? then args[0].w else 0
  }

  function TextOf(args: seq<Arg>): string {
    if args != [] && args[0].Str? then args[0].text else ""
  }

  function Next(args: seq<Arg>): seq<Arg> {
    if args == [] then [] else args[1..]
  }

  function SignedOf(w: uint32): int {
    if IsNegative(w) then w - TWO_TO_THE_32 else w
  }

  // ------------------------------------------------------- What a format means

  /** A conversion specification: everything between the '%' and the conversion character,
      which is NUL when the format ends too early. */
  datatype Spec = Spec(flags: Flags, width: int, prec: int, conv: char, rest: string, args: seq<Arg>)

  predicate IsFlag(c: char) {
    c == '-' || c == '+' || c == ' ' || c == '#' || c == '0'
  }

  function WithFlag(c: char, fl: Flags): Flags
    requires IsFlag(c)
  {
    match c
    case '-' => fl.(left := true)
    case '+' => fl.(plus := true)
    case ' ' => fl.(space := true)
    case '#' => fl.(special := true)
    case _ => fl.(zeroPad := true)
  }

  function FlagsOf(f: string, fl: Flags): (r: (string, Flags))
    ensures |r.0| <= |f|
  {
    if f != "" && IsFlag(f[0]) then FlagsOf(f[1..], WithFlag(f[0], fl)) else (f, fl)
  }

  function AtoiOf(f: string, acc: nat): (r: (string, nat))
    ensures |r.0| <= |f|
  {
    if f != "" && IsDecimal(f[0]) then AtoiOf(f[1..], acc * 10 + (f[0] as int - '0' as int)) else (f, acc)
  }

  /** A '*' takes an argument but is not stepped over (src/printf.c:180-187), so it then
      ends the specification as an unknown conversion. */
  function WidthOf(f: string, args: seq<Arg>, fl: Flags): (r: (string, int, seq<Arg>, Flags))
    ensures |r.0| <= |f|
  {
    if IsDecimal(CharAt(f, 0)) then
      var (rest, width) := AtoiOf(f, 0);
      (rest, width, args, fl)
    else if CharAt(f, 0) == '*' then
      var width := SignedOf(WordOf(args));
      if width < 0 then (f, -width, Next(args), fl.(left := true)) else (f, width, Next(args), fl)
    else (f, -1, args, fl)
  }

  function PrecisionOf(f: string, args: seq<Arg>): (r: (string, int, seq<Arg>))
    ensures |r.0| <= |f|
  {
    if CharAt(f, 0) != '.' then (f, -1, args)
    else if IsDecimal(CharAt(f[1..], 0)) then
      var (rest, prec) := AtoiOf(f[1..], 0);
      (rest, prec, args)
    else if CharAt(f[1..], 0) == '*' then (f[1..], Max(0, SignedOf(WordOf(args))), Next(args))
    else (f[1..], 0, args)
  }

  predicate IsQualifier(c: char) {
    c == 'h' || c == 'l' || c == 'L'
  }

  function SkipQualifier(f: string): (rest: string)
    ensures |rest| <= |f|
  {
    if IsQualifier(CharAt(f, 0)) then f[1..] else f
  }

  /** The specification that starts just after a '%'. */
  function SpecOf(f: string, args: seq<Arg>): (p: Spec)
    ensures |p.rest| <= |f|
  {
    var (f1, fl) := FlagsOf(f, NO_FLAGS);
    var (f2, width, args2, fl2) := WidthOf(f1, args, fl);
    var (f3, prec, args3) := PrecisionOf(f2, args2);
    var f4 := SkipQualifier(f3);
    var conv := CharAt(f4, 0);
    Spec(fl2, width, prec, conv, if conv == '\0' then f4 else f4[1..], args3)
  }

  predicate IsNumberConv(conv: char) {
    match conv
    case 'o' => true
    case 'p' => true
    case 'x' => true
    case 'X' => true
    case 'd' => true
    case 'i' => true
    case 'u' => true
    case 'b' => true
    case _ => false
  }

  predicate TakesArgument(conv: char) {
    conv == 'c' || conv == 's' || conv == 'n' || IsNumberConv(conv)
  }

  function BaseOf(conv: char): nat {
    match conv
    case 'o' => 8
    case 'p' => 16
    case 'x' => 16
    case 'X' => 16
    case 'b' => 2
    case _ => 10
  }

  /** The flags that the conversion character adds. */
  function ConvFlags(p: Spec): Flags {
    match p.conv
    case 'p' => if p.width == -1 then p.flags.(zeroPad := true) else p.flags
    case 'x' => p.flags.(small := true)
    case 'd' => p.flags.(sign := true)
    case 'i' => p.flags.(sign := true)
    case _ => p.flags
  }

  function ConvWidth(p: Spec): int {
    if p.conv == 'p' && p.width == -1 then 8 else p.width
  }

  function Field(text: string, width: int, left: bool): string {
    var pad := Repeat(' ', width - |text|);
    if left then text + pad else pad + text
  }

  /** What one conversion prints. */
  function ConvText(p: Spec): string {
    if p.conv == 'c' then
      Field([(WordOf(p.args) % 256) as char], p.width, p.flags.left)
    else if p.conv == 's' then
      var s := TextOf(p.args);
      Field(if 0 <= p.prec < |s| then s[..p.prec] else s, p.width, p.flags.left)
    else if IsNumberConv(p.conv) then
      NumberText(WordOf(p.args), BaseOf(p.conv), ConvWidth(p), p.prec, ConvFlags(p))
    else if p.conv == 'n' then ""
    else if p.conv == '%' then "%"
    else if p.conv == '\0' then "%"
    else ['%', p.conv]
  }

  /** Text, and the values that %n stores. */
  datatype Output = Output(text: string, counts: seq<nat>)

  /** `first`, then `rest`. */
  function Append(first: Output, rest: Output): Output {
    Output(first.text + rest.text, first.counts + rest.counts)
  }

  /** What the next literal character or conversion does. */
  datatype Step = Step(text: string, counts: seq<nat>, rest: string, args: seq<Arg>)

  function StepOf(f: string, args: seq<Arg>, done: nat): (s: Step)
    requires CharAt(f, 0) != '\0'
    ensures |s.rest| < |f|
  {
    if f[0] != '%' then Step([f[0]], [], f[1..], args)
    else
      var p := SpecOf(f[1..], args);
      Step(ConvText(p), if p.conv == 'n' then [done] else [], p.rest,
           if TakesArgument(p.conv) then Next(p.args) else p.args)
  }

  /** What a whole format prints when `done` characters stand before it. */
  function Format(f: string, args: seq<Arg>, done: nat): Output
    decreases |f|
  {
    if CharAt(f, 0) == '\0' then Output("", [])
    else
      var s := StepOf(f, args, done);
      Append(Output(s.text, s.counts), Format(s.rest, s.args, done + |s.text|))
  }

  lemma FormatUnfold(f: string, args: seq<Arg>, done: nat, s: Step)
    requires CharAt(f, 0) != '\0' && s == StepOf(f, args, done)
    ensures Format(f, args, done) == Append(Output(s.text, s.counts), Format(s.rest, s.args, done + |s.text|))
  {}

  // --------------------------------------------------------- The interpreter

  /** `skip_atoi`, src/printf.c:37-45. */
  method SkipAtoi(f: string) returns (rest: string, i: nat)
    ensures (rest, i) == AtoiOf(f, 0)
  {
    rest, i := f, 0;
    while rest != "" && IsDecimal(rest[0])
      invariant AtoiOf(rest, i) == AtoiOf(f, 0)
      decreases |rest|
    {
      i := i * 10 + (rest[0] as int - '0' as int);
      rest := rest[1..];
    }
  }

  /** src/printf.c:160-209. */
  method ReadSpec(f: string, args: seq<Arg>) returns (p: Spec)
    ensures p == SpecOf(f, args)
  {
    var rest, flags, ap := f, NO_FLAGS, args;
    while rest != "" && IsFlag(rest[0])
      invariant FlagsOf(rest, flags) == FlagsOf(f, NO_FLAGS)
      decreases |rest|
    {
      flags := WithFlag(rest[0], flags);
      rest := rest[1..];
    }
    var width, prec := -1, -1;
    if IsDecimal(CharAt(rest, 0)) {
      rest, width := SkipAtoi(rest);
    } else if CharAt(rest, 0) == '*' {
      width := SignedOf(WordOf(ap));
      ap := Next(ap);
      if width < 0 {
        width := -width;
        flags := flags.(left := true);
      }
    }
    if CharAt(rest, 0) == '.' {
      rest := rest[1..];
      if IsDecimal(CharAt(rest, 0)) {
        rest, prec := SkipAtoi(rest);
      } else if CharAt(rest, 0) == '*' {
        prec := SignedOf(WordOf(ap));
        ap := Next(ap);
      }
      if prec < 0 {
        prec := 0;
      }
    }
    if IsQualifier(CharAt(rest, 0)) {
      rest := rest[1..];
    }
    var conv := CharAt(rest, 0);
    p := Spec(flags, width, prec, conv, if conv == '\0' then rest else rest[1..], ap);
  }

  /** `for (i = 0; i < len; ++i) *str++ = *s++;` */
  method PutText(buf: array<char>, at: nat, s: string, ghost start: string, ghost text: string) returns (str: nat)
    requires Written(buf, at, start, text) && at + |s| <= buf.Length
    modifies buf
    ensures str == at + |s| && Written(buf, str, start, text + s)
    ensures forall k :: str <= k < buf.Length ==> buf[k] == old(buf[k])
  {
    str := at;
    var i := 0;
    while i < |s|
      invariant 0 <= i <= |s| && str == at + i
      invariant Written(buf, str, start, text + s[..i])
      invariant forall k :: str <= k < buf.Length ==> buf[k] == old(buf[k])
    {
      assert text + s[..i] + [s[i]] == text + s[..i + 1];
      str := Put(buf, str, s[i], start, text + s[..i]);
      i := i + 1;
    }
    assert s[..|s|] == s;
  }

  /** The loops of src/printf.c:212-222 and 233-243 around the text of a %c or a %s. */
  method PutField(buf: array<char>, at: nat, s: string, width: int, left: bool, ghost start: string)
    returns (str: nat)
    requires Written(buf, at, start, "") && at + |Field(s, width, left)| <= buf.Length
    modifies buf
    ensures str == at + |Field(s, width, left)| && Written(buf, str, start, Field(s, width, left))
    ensures forall k :: str <= k < buf.Length ==> buf[k] == old(buf[k])
  {
    var spare := width - |s|;
    ghost var text := Repeat(' ', if left then 0 else spare);
    ConcatEmpty(text);
    str, spare := PadWhen(!left, buf, at, spare, ' ', start, "");
    str := PutText(buf, str, s, start, text);
    ghost var after := spare;
    str, spare := Pad(buf, str, spare, ' ', start, text + s);
    ConcatEmpty(s);
    ConcatEmpty(text + s);
  }

  /** The switch of src/printf.c:211-293. */
  method Convert(buf: array<char>, at: nat, p: Spec) returns (str: nat)
    requires at + |ConvText(p)| <= buf.Length
    modifies buf
    ensures str == at + |ConvText(p)| && Written(buf, str, old(buf[..at]), ConvText(p))
    ensures forall k :: str <= k < buf.Length ==> buf[k] == old(buf[k])
  {
    str := at;
    ghost var start := buf[..at];
    ConcatEmpty(start);
    if p.conv == 'c' {
      str := PutField(buf, str, [(WordOf(p.args) % 256) as char], p.width, p.flags.left, start);
    } else if p.conv == 's' {
      var s := TextOf(p.args);
      var len, precision := |s|, p.prec;
      if precision < 0 {
        precision := len;
      } else if len > precision {
        len := precision;
      }
      assert s[..|s|] == s;
      str := PutField(buf, str, s[..len], p.width, p.flags.left, start);
    } else if IsNumberConv(p.conv) {
      var end := Number(buf, str, WordOf(p.args), BaseOf(p.conv), ConvWidth(p), p.prec, ConvFlags(p));
      str := end.value;
    } else if p.conv != 'n' {
      str := Put(buf, str, '%', start, "");
      if p.conv != '%' && p.conv != '\0' {
        str := Put(buf, str, p.conv, start, "%");
      }
    }
  }

  /** The body of the loop at src/printf.c:154-294. */
  method PrintStep(buff: array<char>, at: nat, f: string, args: seq<Arg>, ghost s: Step)
    returns (n: nat, counts: seq<nat>, rest: string, ap: seq<Arg>)
    requires CharAt(f, 0) != '\0' && s == StepOf(f, args, at)
    requires at + |s.text| <= buff.Length
    modifies buff
    ensures s == Step(s.text, counts, rest, ap)
    ensures n == at + |s.text|
    ensures Written(buff, n, old(buff[..at]), s.text)
    ensures forall k :: n <= k < buff.Length ==> buff[k] == old(buff[k])
  {
    ghost var start := buff[..at];
    ConcatEmpty(start);
    counts := [];
    if f[0] != '%' {
      n := Put(buff, at, f[0], start, "");
      rest, ap := f[1..], args;
    } else {
      var p := ReadSpec(f[1..], args);
      if p.conv == 'n' {
        counts := [at];
      }
      n := Convert(buff, at, p);
      rest, ap := p.rest, if TakesArgument(p.conv) then Next(p.args) else p.args;
    }
  }

  lemma AppendAssoc(a: Output, b: Output, c: Output)
    ensures Append(Append(a, b), c) == Append(a, Append(b, c))
  {
    ConcatAssoc(a.text, b.text, c.text);
    assert (a.counts + b.counts) + c.counts == a.counts + (b.counts + c.counts);
  }

  /** One turn of the loop: what is left to print starts with what the step prints. */
  lemma Advance(f: string, args: seq<Arg>, n: nat, all: Output, done: Output) returns (s: Step, tail: Output)
    requires CharAt(f, 0) != '\0' && all == Append(done, Format(f, args, n))
    ensures s == StepOf(f, args, n) && |s.rest| < |f|
    ensures tail == Format(s.rest, s.args, n + |s.text|)
    ensures all == Append(Append(done, Output(s.text, s.counts)), tail)
  {
    s := StepOf(f, args, n);
    tail := Format(s.rest, s.args, n + |s.text|);
    AppendAssoc(done, Output(s.text, s.counts), tail);
  }

  /** The buffer and the stored counts hold `done`, the format suffix `f` prints the rest of `all`. */
  ghost predicate Inv(buff: array<char>, n: nat, counts: seq<nat>, f: string, ap: seq<Arg>, done: Output, all: Output)
    reads buff
  {
    && n <= buff.Length && buff[..n] == done.text && counts == done.counts
    && all == Append(done, Format(f, ap, n))
  }

  method PrintTurn(buff: array<char>, at: nat, counts0: seq<nat>, f: string, args: seq<Arg>,
                   ghost done0: Output, ghost all: Output)
    returns (n: nat, counts: seq<nat>, rest: string, ap: seq<Arg>, ghost done: Output)
    requires CharAt(f, 0) != '\0' && Inv(buff, at, counts0, f, args, done0, all) && |all.text| < buff.Length
    modifies buff
    ensures Inv(buff, n, counts, rest, ap, done, all) && |rest| < |f| && at <= n < buff.Length
    ensures forall k :: n <= k < buff.Length ==> buff[k] == old(buff[k])
  {
    hide StepOf, Format;
    ghost var s, tail := Advance(f, args, at, all, done0);
    ghost var piece := Output(s.text, s.counts);
    done := Append(done0, piece);
    assert |all.text| == at + |s.text| + |tail.text|;
    n, counts, rest, ap := PrintStep(buff, at, f, args, s);
    counts := counts0 + counts;
  }

  /** `vsprintf` writes exactly the text of the format, then a NUL, and stores at each %n the
      number of characters before it; the rest of the buffer keeps its contents. */
  method Vsprintf(buff: array<char>, format: string, args: seq<Arg>) returns (n: nat, counts: seq<nat>)
    requires |Format(format, args, 0).text| < buff.Length
    modifies buff
    ensures n < buff.Length && buff[..n] == Format(format, args, 0).text && buff[n] == '\0'
    ensures counts == Format(format, args, 0).counts
    ensures forall k :: n < k < buff.Length ==> buff[k] == old(buff[k])
  {
    hide StepOf;
    ghost var all, done := Format(format, args, 0), Output("", []);
    var f, ap := format, args;
    n, counts := 0, [];
    ConcatEmpty(all.text);
    while CharAt(f, 0) != '\0'
      invariant n < buff.Length && Inv(buff, n, counts, f, ap, done, all)
      invariant forall k :: n < k < buff.Length ==> buff[k] == old(buff[k])
      decreases |f|
    {
      n, counts, f, ap, done := PrintTurn(buff, n, counts, f, ap, done, all);
    }
    buff[n] := '\0';
  }

  /** A number without width and precision. */
  lemma PlainText(n: uint32, base: nat, ty: Flags)
    requires 2 <= base <= 36 && !ty.sign && !ty.plus && !ty.space
    ensures NumberText(n, base, -1, -1, ty) == PrefixText(base, ty) + Numeral(n, base, ty.small)
  {
    var d := Numeral(n, base, ty.small);
    ConcatEmpty(d);
    ConcatEmpty(PrefixText(base, ty));
    ConcatEmpty(PrefixText(base, ty) + d);
  }

  /** A format that is one conversion prints what the conversion prints. */
  lemma OneConversion(f: string, a: Arg, p: Spec)
    requires |f| > 0 && f[0] == '%' && p == SpecOf(f[1..], [a])
    requires p.rest == "" && p.args == [a] && TakesArgument(p.conv)
    ensures Format(f, [a], 0).text == ConvText(p) + ""
  {
    assert StepOf(f, [a], 0) == Step(ConvText(p), if p.conv == 'n' then [0] else [], "", Next([a]));
    assert Format("", Next([a]), |ConvText(p)|) == Output("", []);
  }
}
