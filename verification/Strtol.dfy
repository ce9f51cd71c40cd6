/** `string2long`, `strtol` and `strtoul` of src/_doscan.c:110-199. */
module Strtol {
  import opened Numerals

  // ------------------------------------------------------------ Specification

  /** Where the parts of a number stand: its sign, the first character after the sign, the
      base in force, and the first digit that counts. */
  datatype Subject = Subject(neg: bool, start: nat, base: nat, from: nat)

  predicate ValidBase(base: nat) {
    base == 0 || 2 <= base <= 36
  }

  predicate IsSign(c: char) {
    c == '-' || c == '+'
  }

  predicate IsX(c: char) {
    c == 'x' || c == 'X'
  }

  /** How `base` and the first two characters after the sign settle the base and the number
      of characters to skip (src/_doscan.c:148-158). */
  function PrefixOf(s: string, start: nat, base: nat): (r: (nat, nat))
    requires ValidBase(base) && start <= |s|
    ensures 2 <= r.0 <= 36 && start <= r.1 <= |s|
    ensures base != 0 ==> r.0 == base
  {
    var zero := CharAt(s, start) == '0';
    var x := zero && IsX(CharAt(s, start + 1));
    if base == 0 then
      if x then (16, start + 2) else if zero then (8, start + 1) else (10, start)
    else if base == 16 && zero then
      (16, if x then start + 2 else start + 1)
    else (base, start)
  }

  function SubjectOf(s: string, base: nat): (r: Subject)
    requires ValidBase(base)
    ensures 2 <= r.base <= 36 && r.start <= r.from <= |s|
  {
    var n := SpaceRun(s);
    var c := CharAt(s, n);
    var start := if IsSign(c) then n + 1 else n;
    var (b, from) := PrefixOf(s, start, base);
    Subject(c == '-', start, b, from)
  }

  function EndOf(s: string, base: nat): (end: nat)
    requires ValidBase(base)
    ensures SubjectOf(s, base).from <= end <= |s|
  {
    var sub := SubjectOf(s, base);
    sub.from + DigitRun(s[sub.from..], sub.base)
  }

  /** The number that the digits denote, without any bound. */
  ghost function MagnitudeOf(s: string, base: nat): nat
    requires ValidBase(base)
  {
    Value(s[SubjectOf(s, base).from..EndOf(s, base)], SubjectOf(s, base).base)
  }

  /** C99 section 7.20.1.4: the value if it is representable, the nearest limit if it is
      not. For an unsigned result the sign is applied modulo 2^32. */
  function Saturate(neg: bool, v: nat, signed: bool): uint32 {
    if !signed then
      if v > ULONG_MAX then ULONG_MAX else if neg then Negate(v) else v
    else if neg then
      if v > LONG_MIN_MAGNITUDE then LONG_MIN_MAGNITUDE else Negate(v)
    else
      if v > LONG_MAX then LONG_MAX else v
  }

  ghost function Scanned(s: string, base: nat, signed: bool): uint32
    requires ValidBase(base)
  {
    Saturate(SubjectOf(s, base).neg, MagnitudeOf(s, base), signed)
  }

  // ----------------------------------------------------------- The conversion

  /** The test at src/_doscan.c:174 fires exactly when the next step would wrap. */
  lemma WrapTest(val: uint32, v: nat, base: nat)
    requires 1 <= base && v < base <= 36
    ensures val > (ULONG_MAX - v) / base <==> val * base + v > ULONG_MAX
  {
    var room := ULONG_MAX - v;
    var q := room / base;
    assert room == base * q + room % base;
    if val > q {
      MulMono(base, base, q + 1, val);
    } else {
      MulMono(base, base, val, q);
    }
  }

  /** One turn of the digit loop: the accumulator is exact until the value exceeds
      ULONG_MAX, and from then on the overflow is remembered. */
  lemma DigitStep(read: string, c: char, base: nat, val: uint32, ovfl: nat)
    requires 2 <= base <= 36 && IsDigitIn(c, base)
    requires ovfl == 0 <==> Value(read, base) <= ULONG_MAX
    requires ovfl == 0 ==> val == Value(read, base)
    ensures var fires := val > (ULONG_MAX - DigitValue(c)) / base;
            (ovfl == 0 && !fires) <==> Value(read + [c], base) <= ULONG_MAX
    ensures ovfl == 0 && Value(read + [c], base) <= ULONG_MAX ==>
              Value(read + [c], base) == (val * base + DigitValue(c)) % TWO_TO_THE_32
  {
    var v, exact := DigitValue(c), Value(read, base);
    assert v < base;
    hide Value, DigitValue, IsDigitIn;
    ValueAppend(read, c, base);
    WrapTest(val, v, base);
    MulAtLeast(exact, base);
    StepOnNumbers(exact, exact * base, val, val * base, v, ovfl, val > (ULONG_MAX - v) / base);
  }

  lemma StepOnNumbers(exact: nat, product: nat, val: uint32, valProduct: nat, v: nat, ovfl: nat, fires: bool)
    requires ovfl == 0 <==> exact <= ULONG_MAX
    requires ovfl == 0 ==> val == exact && valProduct == product
    requires product >= exact && (fires <==> valProduct + v > ULONG_MAX)
    ensures (ovfl == 0 && !fires) <==> product + v <= ULONG_MAX
    ensures ovfl == 0 && product + v <= ULONG_MAX ==> product + v == (valProduct + v) % TWO_TO_THE_32
  {}

  /** src/_doscan.c:138-158. */
  method ReadPrefix(s: string, base0: nat) returns (sub: Subject)
    requires ValidBase(base0)
    ensures sub == SubjectOf(s, base0)
  {
    var nptr, neg, base := 0, false, base0;
    while IsSpace(CharAt(s, nptr))
      invariant nptr <= |s| && AllSpace(s[..nptr])
      decreases |s| - nptr
    {
      nptr := nptr + 1;
    }
    SpaceRunIs(s, nptr);
    var c := CharAt(s, nptr);
    if c == '-' || c == '+' {
      neg := c == '-';
      nptr := nptr + 1;
    }
    var nrstart := nptr;
    if base == 0 {
      if CharAt(s, nptr) == '0' {
        nptr := nptr + 1;
        if IsX(CharAt(s, nptr)) {
          base := 16;
          nptr := nptr + 1;
        } else {
          base := 8;
        }
      } else {
        base := 10;
      }
    } else if base == 16 && CharAt(s, nptr) == '0' {
      nptr := nptr + 1;
      if IsX(CharAt(s, nptr)) {
        nptr := nptr + 1;
      }
    }
    sub := Subject(neg, nrstart, base, nptr);
  }

  /** The digit loop, src/_doscan.c:160-177, over a 32-bit accumulator that may wrap. */
  method ReadDigits(s: string, from: nat, base: nat) returns (nptr: nat, val: uint32, ovfl: nat)
    requires 2 <= base <= 36 && from <= |s|
    ensures nptr == from + DigitRun(s[from..], base)
    ensures ovfl == 0 <==> Value(s[from..nptr], base) <= ULONG_MAX
    ensures ovfl == 0 ==> val == Value(s[from..nptr], base)
  {
    nptr, val, ovfl := from, 0, 0;
    while true
      invariant from <= nptr <= |s| && AllDigits(s[from..nptr], base)
      invariant ovfl == 0 <==> Value(s[from..nptr], base) <= ULONG_MAX
      invariant ovfl == 0 ==> val == Value(s[from..nptr], base)
      decreases |s| - nptr
    {
      var c := CharAt(s, nptr);
      var v := DigitValue(c);
      if v >= base {
        break;
      }
      ghost var read := s[from..nptr];
      assert s[from..nptr + 1] == read + [c];
      DigitStep(read, c, base, val, ovfl);
      if val > (ULONG_MAX - v) / base {
        ovfl := ovfl + 1;
      }
      val := (val * base + v) % TWO_TO_THE_32;
      nptr := nptr + 1;
    }
    assert s[from..][..nptr - from] == s[from..nptr];
    DigitRunIs(s[from..], base, nptr - from);
  }

  // -------------------------------------------- The subject sequence of C99

  /** The digits of the subject sequence as C99 section 7.20.1.4 defines it: a prefix 0x
      belongs to the number only when a hexadecimal digit follows it, and the zero of an
      octal or hexadecimal number is one of its digits. */
  ghost function StandardDigits(s: string, start: nat, base: nat): (r: (nat, nat, nat))
    requires ValidBase(base) && start <= |s|
    ensures r.1 <= r.2 <= |s|
  {
    if (base == 0 || base == 16) && CharAt(s, start) == '0' && IsX(CharAt(s, start + 1))
       && IsDigitIn(CharAt(s, start + 2), 16)
    then (16, start + 2, start + 2 + DigitRun(s[start + 2..], 16))
    else
      var b := if base != 0 then base else if CharAt(s, start) == '0' then 8 else 10;
      (b, start, start + DigitRun(s[start..], b))
  }

  predicate LonePrefix(s: string, base: nat)
    requires ValidBase(base)
  {
    var sub := SubjectOf(s, base);
    && (base == 0 || base == 16)
    && CharAt(s, sub.start) == '0' && IsX(CharAt(s, sub.start + 1))
    && !IsDigitIn(CharAt(s, sub.start + 2), 16)
  }

  lemma DigitRunAfterZero(s: string, base: nat)
    requires 2 <= base <= 36 && s != "" && s[0] == '0'
    ensures DigitRun(s, base) == 1 + DigitRun(s[1..], base)
    ensures Value(s[..DigitRun(s, base)], base) == Value(s[1..][..DigitRun(s[1..], base)], base)
  {
    var n := DigitRun(s[1..], base);
    assert s[..1 + n] == Repeat('0', 1) + s[1..][..n];
    ValueLeadingZeros(1, s[1..][..n], base);
  }

  ghost predicate Agrees(s: string, base: nat, sub: Subject, sameEnd: bool)
    requires ValidBase(base) && sub == SubjectOf(s, base)
  {
    var (b, from, end) := StandardDigits(s, sub.start, base);
    && from <= end <= |s|
    && MagnitudeOf(s, base) == Value(s[from..end], b)
    && (EndOf(s, base) == end <==> sameEnd)
  }

  lemma AgreesOnLonePrefix(s: string, base: nat, sub: Subject)
    requires ValidBase(base) && sub == SubjectOf(s, base) && LonePrefix(s, base)
    ensures Agrees(s, base, sub, false)
  {
    var t := s[sub.start..];
    var b := if base == 0 then 8 else 16;
    assert t[0] == '0' && t[1] == s[sub.start + 1];
    DigitRunIs(t, b, 1);
    assert t[..1] == Repeat('0', 1) + "";
    ValueLeadingZeros(1, "", b);
    DigitRunIs(s[sub.start + 2..], 16, 0);
    assert s[sub.start..sub.start + 1] == t[..1];
  }

  lemma ZeroStandard(s: string, base: nat, sub: Subject)
    requires ValidBase(base) && sub == SubjectOf(s, base) && sub.from == sub.start + 1
    ensures CharAt(s, sub.start) == '0'
    ensures StandardDigits(s, sub.start, base)
         == (sub.base, sub.start, sub.start + DigitRun(s[sub.start..], sub.base))
  {
    hide DigitRun, SpaceRun;
  }

  lemma AgreesOnZero(s: string, base: nat, sub: Subject)
    requires ValidBase(base) && sub == SubjectOf(s, base)
    requires sub.from == sub.start + 1
    ensures Agrees(s, base, sub, true)
  {
    hide Value, DigitRun, IsDigitIn, StandardDigits, SubjectOf;
    ZeroStandard(s, base, sub);
    var t := s[sub.start..];
    assert t[0] == '0' && t[1..] == s[sub.from..];
    DigitRunAfterZero(t, sub.base);
    assert s[sub.start..EndOf(s, base)] == t[..DigitRun(t, sub.base)];
    assert s[sub.from..EndOf(s, base)] == t[1..][..DigitRun(t[1..], sub.base)];
  }

  /** The value that the code computes is always that of the standard; it stops where the
      standard stops exactly when the text is not a 0x without a digit behind it. */
  lemma AgreesWithStandard(s: string, base: nat, sub: Subject)
    requires ValidBase(base) && sub == SubjectOf(s, base)
    ensures Agrees(s, base, sub, !LonePrefix(s, base))
  {
    hide Value, DigitRun;
    if LonePrefix(s, base) {
      AgreesOnLonePrefix(s, base, sub);
    } else if sub.from == sub.start + 1 {
      AgreesOnZero(s, base, sub);
    }
  }

  /** The first character behind white space and sign. */
  ghost function StandardStart(s: string): (n: nat)
    ensures n <= |s|
  {
    var n := SpaceRun(s);
    if CharAt(s, n) == '+' || CharAt(s, n) == '-' then n + 1 else n
  }

  /** The number that the subject sequence denotes, without any bound. */
  ghost function StandardValue(s: string, base: nat): int
    requires ValidBase(base)
  {
    var (b, from, end) := StandardDigits(s, StandardStart(s), base);
    var m: int := Value(s[from..end], b);
    if CharAt(s, SpaceRun(s)) == '-' then -m else m
  }

  /** The word `r` stands for the number `v`, or for the nearest limit: as a signed int from
      -2^31 to 2^31 - 1, or modulo 2^32 as long as the magnitude is below 2^32. */
  predicate Saturates(r: uint32, v: int, signed: bool) {
    if signed then
      var x := if r >= 0x8000_0000 then r - 0x1_0000_0000 else r;
      && (-0x8000_0000 <= v < 0x8000_0000 ==> x == v)
      && (v >= 0x8000_0000 ==> x == 0x7FFF_FFFF)
      && (v < -0x8000_0000 ==> x == -0x8000_0000)
    else
      && (-0x1_0000_0000 < v < 0x1_0000_0000 ==> r == v % 0x1_0000_0000)
      && (v <= -0x1_0000_0000 || v >= 0x1_0000_0000 ==> r == 0xFFFF_FFFF)
  }

  lemma SaturateIs(neg: bool, m: nat, signed: bool, v: int)
    requires v == if neg then -(m as int) else m
    ensures Saturates(Saturate(neg, m, signed), v, signed)
  {}

  lemma StandardParts(s: string, base: nat, sub: Subject)
    requires ValidBase(base) && sub == SubjectOf(s, base)
    ensures sub.start == StandardStart(s) && (sub.neg <==> CharAt(s, SpaceRun(s)) == '-')
  {
    hide SpaceRun, PrefixOf;
  }

  /** The conversion saturates exactly, for every string, base and signedness. */
  lemma ScannedSaturates(s: string, base: nat, signed: bool)
    requires ValidBase(base)
    ensures Saturates(Scanned(s, base, signed), StandardValue(s, base), signed)
  {
    var sub := SubjectOf(s, base);
    hide Value, StandardDigits, StandardStart, SubjectOf, EndOf, MagnitudeOf, Saturate, Saturates, SpaceRun, LonePrefix;
    AgreesWithStandard(s, base, sub);
    StandardParts(s, base, sub);
    SaturateIs(sub.neg, MagnitudeOf(s, base), signed, StandardValue(s, base));
  }

  // ------------------------------------------------------------- The functions

  /** `string2long`: exact for numerals of any length. The second result is the position that
      the code stores through `endptr`: the start when nothing follows the sign. */
  method String2Long(s: string, base: nat, signed: bool) returns (r: uint32, endptr: nat)
    requires ValidBase(base)
    ensures r == Scanned(s, base, signed) && Saturates(r, StandardValue(s, base), signed)
    ensures endptr == if EndOf(s, base) == SubjectOf(s, base).start then 0 else EndOf(s, base)
  {
    hide Value, DigitRun, SubjectOf, Saturates, StandardValue, SpaceRun, PrefixOf;
    ScannedSaturates(s, base, signed);
    var sub := ReadPrefix(s, base);
    var nptr, val, ovfl := ReadDigits(s, sub.from, sub.base);
    endptr := if sub.start == nptr then 0 else nptr;
    if ovfl == 0 {
      if signed && ((sub.neg && val > LONG_MIN_MAGNITUDE) || (!sub.neg && val > LONG_MAX)) {
        ovfl := ovfl + 1;
      }
    }
    if ovfl > 0 {
      if signed {
        return if sub.neg then LONG_MIN_MAGNITUDE else LONG_MAX, endptr;
      } else {
        return ULONG_MAX, endptr;
      }
    }
    r := if sub.neg then Negate(val) else val;
  }

  /** `strtol`, src/_doscan.c:114-118. */
  method Strtol(s: string, base: nat) returns (r: uint32, endptr: nat)
    requires ValidBase(base)
    ensures r == Scanned(s, base, true) && Saturates(r, StandardValue(s, base), true)
    ensures endptr == if EndOf(s, base) == SubjectOf(s, base).start then 0 else EndOf(s, base)
  {
    r, endptr := String2Long(s, base, true);
  }

  /** `strtoul`, src/_doscan.c:120-124. */
  method Strtoul(s: string, base: nat) returns (r: uint32, endptr: nat)
    requires ValidBase(base)
    ensures r == Scanned(s, base, false) && Saturates(r, StandardValue(s, base), false)
    ensures endptr == if EndOf(s, base) == SubjectOf(s, base).start then 0 else EndOf(s, base)
  {
    r, endptr := String2Long(s, base, false);
  }

  /** "0x" in base 16: the code stops behind the x, the standard behind the zero. */
  lemma LonePrefixExample()
    ensures LonePrefix("0x", 16)
    ensures EndOf("0x", 16) == 2 && StandardDigits("0x", 0, 16) == (16, 0, 1)
  {
    var s := "0x";
    SpaceRunIs(s, 0);
    assert SubjectOf(s, 16) == Subject(false, 0, 16, 2);
    DigitRunIs(s[2..], 16, 0);
    DigitRunIs(s[0..], 16, 1);
  }
}
