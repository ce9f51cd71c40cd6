/** `string2long` undoes `number`: every 32-bit word, in every base and under every flag,
    width and precision, is read back as it was printed. */
module NumberRoundTrip {
  import opened Numerals
  import opened Printf
  import opened Strtol

  /** The text of a number, taken apart: white space, sign, prefix, digits, white space. */
  datatype Shape = Shape(ws: string, sign: string, prefix: string, body: string, tail: string) {
    function Text(): string {
      ws + (sign + (prefix + (body + tail)))
    }

    ghost predicate Valid(base: nat) {
      && AllSpace(ws) && AllSpace(tail)
      && (sign == "" || sign == "+" || sign == "-")
      && body != "" && AllDigits(body, base)
      && PrefixFits(prefix, base)
    }
  }

  /** No prefix, the octal 0, or the hexadecimal 0x. */
  predicate PrefixFits(prefix: string, base: nat) {
    || |prefix| == 0
    || (|prefix| == 1 && base == 8 && prefix[0] == '0')
    || (|prefix| == 2 && base == 16 && prefix[0] == '0' && IsX(prefix[1]))
  }

  lemma SpacesAreSpace(n: int)
    ensures AllSpace(Repeat(' ', n))
  {}

  lemma JoinFive(a: string, b: string, c: string, d: string, e: string)
    ensures a + b + c + d + e == a + (b + (c + (d + e)))
  {}

  lemma BodyIsDigits(n: int, m: nat, base: nat, small: bool)
    requires 2 <= base <= 36
    ensures AllDigits(Repeat('0', n) + Numeral(m, base, small), base)
    ensures Value(Repeat('0', n) + Numeral(m, base, small), base) == m
  {
    NumeralDigits(m, base, small);
    NumeralValue(m, base, small);
    ValueLeadingZeros(if n < 0 then 0 else n, Numeral(m, base, small), base);
  }

  lemma ZerosAppend(n: int, k: int)
    requires n >= 0 && k >= 0
    ensures Repeat('0', n) + Repeat('0', k) == Repeat('0', n + k)
  {}

  /** Which shape `number` prints: a blank in the sign column is white space. */
  ghost function ShapeOf(num: uint32, base: nat, size: int, prec: int, ty: Flags): Shape
    requires 2 <= base <= 36
  {
    var sign, numeral := SignText(num, ty), Numeral(Magnitude(num, ty), base, ty.small);
    var pad := PadCount(num, base, size, prec, ty);
    var before := Repeat(' ', if ty.left || ty.zeroPad then 0 else pad);
    Shape(if sign == " " then before + sign else before,
          if sign == " " then "" else sign,
          PrefixText(base, ty),
          Repeat('0', (if ty.zeroPad && !ty.left then pad else 0) + Max(0, prec - |numeral|)) + numeral,
          Repeat(' ', if ty.left then pad else 0))
  }

  lemma ShapeIsValid(num: uint32, base: nat, size: int, prec: int, ty: Flags, p: Shape)
    requires 2 <= base <= 36 && p == ShapeOf(num, base, size, prec, ty)
    ensures p.Valid(base)
    ensures p.sign == "-" <==> ty.sign && IsNegative(num)
    ensures p.prefix == "" <==> !(ty.special && (base == 8 || base == 16))
    ensures Value(p.body, base) == Magnitude(num, ty)
  {
    hide Numeral, Value, SignText, Magnitude, PadCount, PrefixText;
    var numeral, pad := Numeral(Magnitude(num, ty), base, ty.small), PadCount(num, base, size, prec, ty);
    var zeros := (if ty.zeroPad && !ty.left then pad else 0) + Max(0, prec - |numeral|);
    BodyIsDigits(zeros, Magnitude(num, ty), base, ty.small);
    SignIsASign(num, ty, Repeat(' ', if ty.left || ty.zeroPad then 0 else pad));
    SpacesAreSpace(if ty.left then pad else 0);
    PrefixTextFits(base, ty);
  }

  lemma SignIsASign(num: uint32, ty: Flags, before: string)
    requires AllSpace(before)
    ensures var sign := SignText(num, ty);
            if sign == " " then AllSpace(before + sign) else sign == "" || sign == "+" || sign == "-"
    ensures SignText(num, ty) == "-" <==> ty.sign && IsNegative(num)
  {}

  lemma PrefixTextFits(base: nat, ty: Flags)
    ensures PrefixFits(PrefixText(base, ty), base)
    ensures PrefixText(base, ty) == "" <==> !(ty.special && (base == 8 || base == 16))
  {}

  lemma ShapeText(num: uint32, base: nat, size: int, prec: int, ty: Flags, p: Shape)
    requires 2 <= base <= 36 && p == ShapeOf(num, base, size, prec, ty)
    ensures p.Text() == NumberText(num, base, size, prec, ty)
  {
    hide SignText, Numeral, Magnitude, PrefixText, PadCount, NumberText;
    var sign, numeral := SignText(num, ty), Numeral(Magnitude(num, ty), base, ty.small);
    var pad := PadCount(num, base, size, prec, ty);
    var before := Repeat(' ', if ty.left || ty.zeroPad then 0 else pad);
    var fill := if ty.zeroPad && !ty.left then pad else 0;
    var zeros := Max(0, prec - |numeral|);
    BodyText(fill, zeros, numeral, DigitsText(num, base, prec, ty));
    NumberTextPieces(num, base, size, prec, ty, before, Repeat('0', fill), p.tail);
    JoinFive(before, sign, p.prefix, p.body, p.tail);
    SignIsSpace(before, sign, p.prefix + (p.body + p.tail));
  }

  lemma BodyText(fill: nat, zeros: nat, numeral: string, digits: string)
    requires digits == Repeat('0', zeros) + numeral
    ensures Repeat('0', fill + zeros) + numeral == Repeat('0', fill) + digits
  {
    ZerosAppend(fill, zeros);
    ConcatAssoc(Repeat('0', fill), Repeat('0', zeros), numeral);
  }

  lemma SignIsSpace(before: string, sign: string, rest: string)
    ensures (before + sign) + ("" + rest) == before + (sign + rest)
  {
    ConcatAssoc(before, sign, rest);
    ConcatEmpty(rest);
  }

  lemma NumberTextPieces(num: uint32, base: nat, size: int, prec: int, ty: Flags,
                         before: string, fill: string, after: string)
    requires 2 <= base <= 36
    requires var pad := PadCount(num, base, size, prec, ty);
             && before == Repeat(' ', if ty.left || ty.zeroPad then 0 else pad)
             && fill == Repeat('0', if ty.zeroPad && !ty.left then pad else 0)
             && after == Repeat(' ', if ty.left then pad else 0)
    ensures before + SignText(num, ty) + PrefixText(base, ty) + (fill + DigitsText(num, base, prec, ty)) + after
         == NumberText(num, base, size, prec, ty)
  {
    var sign, prefix, digits := SignText(num, ty), PrefixText(base, ty), DigitsText(num, base, prec, ty);
    if ty.left {
      ConcatEmpty(sign);
      ConcatEmpty(digits);
    } else if ty.zeroPad {
      ConcatEmpty(sign);
      ConcatEmpty(sign + prefix + (fill + digits));
      ConcatAssoc(sign + prefix, fill, digits);
    } else {
      ConcatEmpty(digits);
      ConcatEmpty(before + sign + prefix + digits);
    }
  }

  /** The first character that is no white space and no sign. */
  lemma SubjectStart(p: Shape, base: nat, digitBase: nat)
    requires ValidBase(base) && 2 <= digitBase <= 36 && p.Valid(digitBase)
    ensures var sub := SubjectOf(p.Text(), base);
            && sub.start == |p.ws| + |p.sign|
            && (sub.neg <==> p.sign == "-")
            && p.Text()[sub.start..] == p.prefix + (p.body + p.tail)
  {
    var s, rest := p.Text(), p.prefix + (p.body + p.tail);
    var n := |p.ws|;
    assert s[..n] == p.ws && s[n..] == p.sign + rest;
    assert CharAt(s, n) == (p.sign + rest)[0];
    assert IsDigitIn(rest[0], 36);
    assert p.sign == "" ==> p.sign + rest == rest;
    SpaceRunIs(s, n);
  }

  lemma DigitRunOf(body: string, tail: string, base: nat)
    requires base <= 36
    requires AllDigits(body, base) && AllSpace(tail)
    ensures DigitRun(body + tail, base) == |body| && (body + tail)[..|body|] == body
  {
    assert (body + tail)[..|body|] == body;
    assert CharAt(body + tail, |body|) == CharAt(tail, 0);
    DigitRunIs(body + tail, base, |body|);
  }

  /** The digits of a text without a prefix, or of an octal one with base 0. */
  lemma PlainDigits(s: string, base: nat, b: nat, body: string, tail: string, start: nat)
    requires ValidBase(base) && 2 <= b <= 36 && start <= |s|
    requires s[start..] == body + tail
    requires body != "" && AllDigits(body, b) && AllSpace(tail)
    requires base == b || (base == 0 && b == 8 && body[0] == '0')
    ensures StandardDigits(s, start, base) == (b, start, start + |body|)
    ensures s[start..start + |body|] == body
  {
    DigitRunOf(body, tail, b);
    var t := body + tail;
    assert CharAt(s, start) == t[0];
    assert CharAt(s, start + 1) == CharAt(t, 1);
    assert s[start..start + |body|] == t[..|body|];
  }

  /** The digits of a hexadecimal text with its prefix. */
  lemma PrefixedDigits(s: string, base: nat, prefix: string, body: string, tail: string, start: nat)
    requires (base == 0 || base == 16) && start <= |s|
    requires s[start..] == prefix + (body + tail)
    requires |prefix| == 2 && prefix[0] == '0' && IsX(prefix[1])
    requires body != "" && AllDigits(body, 16) && AllSpace(tail)
    ensures StandardDigits(s, start, base) == (16, start + 2, start + 2 + |body|)
    ensures s[start + 2..start + 2 + |body|] == body
  {
    DigitRunOf(body, tail, 16);
    var t := prefix + (body + tail);
    assert CharAt(s, start) == t[0] && CharAt(s, start + 1) == t[1];
    assert CharAt(s, start + 2) == t[2] == body[0];
    assert s[start + 2..] == t[2..] == body + tail;
    assert s[start + 2..start + 2 + |body|] == (body + tail)[..|body|];
  }

  lemma MagnitudeIs(s: string, base: nat, sub: Subject, b: nat, from: nat, end: nat, body: string)
    requires ValidBase(base) && sub == SubjectOf(s, base)
    requires StandardDigits(s, sub.start, base) == (b, from, end)
    requires from <= end <= |s| ==> s[from..end] == body
    ensures MagnitudeOf(s, base) == Value(body, b)
  {
    AgreesWithStandard(s, base, sub);
  }

  lemma PlainMagnitude(s: string, base: nat, b: nat, body: string, tail: string, sub: Subject)
    requires ValidBase(base) && 2 <= b <= 36 && sub == SubjectOf(s, base) && sub.start <= |s|
    requires s[sub.start..] == body + tail
    requires body != "" && AllDigits(body, b) && AllSpace(tail)
    requires base == b || (base == 0 && b == 8 && body[0] == '0')
    ensures MagnitudeOf(s, base) == Value(body, b)
  {
    PlainDigits(s, base, b, body, tail, sub.start);
    MagnitudeIs(s, base, sub, b, sub.start, sub.start + |body|, body);
  }

  lemma PrefixedMagnitude(s: string, base: nat, prefix: string, body: string, tail: string, sub: Subject)
    requires (base == 0 || base == 16) && sub == SubjectOf(s, base) && sub.start <= |s|
    requires s[sub.start..] == prefix + (body + tail)
    requires |prefix| == 2 && prefix[0] == '0' && IsX(prefix[1])
    requires body != "" && AllDigits(body, 16) && AllSpace(tail)
    ensures MagnitudeOf(s, base) == Value(body, 16)
  {
    PrefixedDigits(s, base, prefix, body, tail, sub.start);
    MagnitudeIs(s, base, sub, 16, sub.start + 2, sub.start + 2 + |body|, body);
  }

  /** Reading the digits behind the sign gives the number of the body. With a prefix the
      text carries its base, so base 0 finds it. */
  lemma BodyMagnitude(s: string, base: nat, scanBase: nat, prefix: string, body: string, tail: string, sub: Subject)
    requires 2 <= base <= 36 && PrefixFits(prefix, base)
    requires scanBase == base || (scanBase == 0 && |prefix| > 0)
    requires sub == SubjectOf(s, scanBase) && sub.start <= |s|
    requires s[sub.start..] == prefix + (body + tail)
    requires body != "" && AllDigits(body, base) && AllSpace(tail)
    ensures MagnitudeOf(s, scanBase) == Value(body, base)
  {
    if |prefix| == 0 {
      ConcatEmpty(body + tail);
      PlainMagnitude(s, scanBase, base, body, tail, sub);
    } else if |prefix| == 1 {
      OctalBody(prefix, body, tail);
      PlainMagnitude(s, scanBase, 8, prefix + body, tail, sub);
    } else {
      PrefixedMagnitude(s, scanBase, prefix, body, tail, sub);
    }
  }

  lemma OctalBody(prefix: string, body: string, tail: string)
    requires |prefix| == 1 && prefix[0] == '0' && AllDigits(body, 8)
    ensures prefix + (body + tail) == (prefix + body) + tail
    ensures (prefix + body)[0] == '0'
    ensures AllDigits(prefix + body, 8) && Value(prefix + body, 8) == Value(body, 8)
  {
    ConcatAssoc(prefix, body, tail);
    assert prefix == Repeat('0', 1);
    ValueLeadingZeros(1, body, 8);
  }

  /** The round trip of one number: signed when it was printed with SIGN, unsigned otherwise.
      With SPECIAL in base 8 or 16, base 0 reads it back as well. */
  lemma NumberScansBack(num: uint32, base: nat, size: int, prec: int, ty: Flags, scanBase: nat)
    requires 2 <= base <= 36
    requires scanBase == base || (scanBase == 0 && ty.special && (base == 8 || base == 16))
    ensures Scanned(NumberText(num, base, size, prec, ty), scanBase, ty.sign) == num
  {
    var p := ShapeOf(num, base, size, prec, ty);
    ShapeIsValid(num, base, size, prec, ty, p);
    ShapeText(num, base, size, prec, ty, p);
    ShapeScansBack(p, base, scanBase, p.Text());
    assert Saturate(p.sign == "-", Magnitude(num, ty), ty.sign) == num;
  }

  lemma ShapeScansBack(p: Shape, base: nat, scanBase: nat, s: string)
    requires 2 <= base <= 36 && p.Valid(base)
    requires scanBase == base || (scanBase == 0 && |p.prefix| > 0)
    requires s == p.Text()
    ensures MagnitudeOf(s, scanBase) == Value(p.body, base)
    ensures SubjectOf(s, scanBase).neg <==> p.sign == "-"
  {
    SubjectStart(p, scanBase, base);
    BodyMagnitude(s, base, scanBase, p.prefix, p.body, p.tail, SubjectOf(s, scanBase));
  }
}
