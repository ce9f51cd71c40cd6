/** C strings, digits and positional numerals: the vocabulary that the printer
    (printf.c) and the scanner (_doscan.c) share. */
module Numerals {

  const TWO_TO_THE_32 := 0x1_0000_0000
  const ULONG_MAX := 0xFFFF_FFFF
  const LONG_MAX := 0x7FFF_FFFF
  /** The magnitude of LONG_MIN. */
  const LONG_MIN_MAGNITUDE := 0x8000_0000

  type uint32 = x: int | 0 <= x < TWO_TO_THE_32

  /** The bits of a 32-bit word, seen as a signed integer, are negative. */
  predicate IsNegative(w: uint32) {
    w >= LONG_MIN_MAGNITUDE
  }

  /** Negation modulo 2^32. */
  function Negate(w: uint32): uint32 {
    if w == 0 then 0 else TWO_TO_THE_32 - w
  }

  // ---------------------------------------------------------------- C strings

  /** The character at `i` of a NUL-terminated string whose text is `s`. */
  function CharAt(s: string, i: nat): char {
    if i < |s| then s[i] else '\0'
  }

  function Repeat(c: char, n: int): (r: string)
    ensures |r| == (if n < 0 then 0 else n)
    ensures forall i :: 0 <= i < |r| ==> r[i] == c
  {
    if n <= 0 then "" else seq(n, _ => c)
  }

  lemma ConcatAssoc(a: string, b: string, c: string)
    ensures (a + b) + c == a + (b + c)
  {}

  lemma ConcatEmpty(a: string)
    ensures a + "" == a && "" + a == a
  {}

  predicate IsSpace(c: char) {
    c == '\t' || c == '\r' || c == '\n' || c == '\U{000B}' || c == '\U{000C}' || c == ' '
  }

  predicate AllSpace(s: string) {
    forall i :: 0 <= i < |s| ==> IsSpace(s[i])
  }

  /** How many white-space characters `s` starts with. */
  function SpaceRun(s: string): (n: nat)
    ensures n <= |s| && AllSpace(s[..n])
    ensures !IsSpace(CharAt(s, n))
  {
    if s != "" && IsSpace(s[0]) then
      assert forall i :: 1 <= i < |s| ==> s[i] == s[1..][i - 1];
      1 + SpaceRun(s[1..])
    else 0
  }

  lemma SpaceRunIs(s: string, n: nat)
    requires n <= |s| && AllSpace(s[..n]) && !IsSpace(CharAt(s, n))
    ensures SpaceRun(s) == n
  {
    var m := SpaceRun(s);
    assert forall i :: 0 <= i < n ==> s[i] == s[..n][i];
    assert forall i :: 0 <= i < m ==> s[i] == s[..m][i];
  }

  // ------------------------------------------------------------------- Digits

  predicate IsDecimal(c: char) {
    '0' <= c <= '9'
  }

  /** The value of a character as a digit; 36, which is below no base, when it is none. */
  function DigitValue(c: char): (v: nat)
    ensures v <= 36
  {
    if '0' <= c <= '9' then c as int - '0' as int
    else if 'a' <= c <= 'z' then c as int - 'a' as int + 10
    else if 'A' <= c <= 'Z' then c as int - 'A' as int + 10
    else 36
  }

  function DigitChar(d: nat, small: bool): (c: char)
    requires d < 36
    ensures DigitValue(c) == d
    ensures d < 10 ==> '0' <= c <= '9'
    ensures 10 <= d && !small ==> 'A' <= c <= 'Z'
  {
    if d < 10 then '0' + d as char
    else if small then 'a' + (d - 10) as char
    else 'A' + (d - 10) as char
  }

  predicate IsDigitIn(c: char, base: nat) {
    DigitValue(c) < base
  }

  predicate AllDigits(s: string, base: nat) {
    forall i :: 0 <= i < |s| ==> IsDigitIn(s[i], base)
  }

  /** The number that a string of digits denotes, of any length. */
  ghost function Value(s: string, base: nat): nat
  {
    if s == "" then 0
    else Value(s[..|s| - 1], base) * base + DigitValue(s[|s| - 1])
  }

  /** How many digits of `base` the string starts with. */
  function DigitRun(s: string, base: nat): (n: nat)
    requires base <= 36
    ensures n <= |s| && AllDigits(s[..n], base)
    ensures !IsDigitIn(CharAt(s, n), base)
  {
    if s != "" && IsDigitIn(s[0], base) then
      assert forall i :: 1 <= i < |s| ==> s[i] == s[1..][i - 1];
      1 + DigitRun(s[1..], base)
    else 0
  }

  lemma DigitRunIs(s: string, base: nat, n: nat)
    requires base <= 36
    requires n <= |s| && AllDigits(s[..n], base) && !IsDigitIn(CharAt(s, n), base)
    ensures DigitRun(s, base) == n
  {
    var m := DigitRun(s, base);
    assert forall i :: 0 <= i < n ==> s[i] == s[..n][i];
    assert forall i :: 0 <= i < m ==> s[i] == s[..m][i];
  }

  lemma ValueAppend(s: string, c: char, base: nat)
    ensures Value(s + [c], base) == Value(s, base) * base + DigitValue(c)
  {
    assert (s + [c])[..|s|] == s;
  }

  /** Leading zeros do not change the number. */
  lemma {:induction false} ValueLeadingZeros(n: nat, s: string, base: nat)
    ensures Value(Repeat('0', n) + s, base) == Value(s, base)
    decreases n + |s|
  {
    var z := Repeat('0', n);
    if s == "" {
      assert z + s == z;
      if n > 0 {
        assert z[..n - 1] == Repeat('0', n - 1);
        ValueLeadingZeros(n - 1, "", base);
        assert Repeat('0', n - 1) + "" == Repeat('0', n - 1);
      }
    } else {
      var t := s[..|s| - 1];
      assert (z + s)[..|z + s| - 1] == z + t;
      ValueLeadingZeros(n, t, base);
    }
  }

  lemma MulAtLeast(x: nat, b: nat)
    requires b >= 1
    ensures x * b >= x
  {}

  // ----------------------------------------------------------------- Numerals

  /** The shortest numeral of `n` in `base`, most significant digit first. */
  function Numeral(n: nat, base: nat, small: bool): (s: string)
    requires 2 <= base <= 36
    ensures s != ""
    decreases n
  {
    if n < base then [DigitChar(n, small)]
    else
      DivShrinks(n, base);
      Numeral(n / base, base, small) + [DigitChar(n % base, small)]
  }

  /** Every character of a numeral is a digit, in the case that was asked for, and only the
      numeral of zero starts with a zero. */
  lemma {:induction false} NumeralDigits(n: nat, base: nat, small: bool)
    requires 2 <= base <= 36
    ensures AllDigits(Numeral(n, base, small), base)
    ensures !small ==> forall i :: 0 <= i < |Numeral(n, base, small)| ==>
              '0' <= Numeral(n, base, small)[i] <= '9' || 'A' <= Numeral(n, base, small)[i] <= 'Z'
    ensures Numeral(n, base, small)[0] == '0' ==> n == 0
    decreases n
  {
    if n >= base {
      DivShrinks(n, base);
      NumeralDigits(n / base, base, small);
    }
  }

  lemma DivShrinks(n: nat, base: nat)
    requires 2 <= base <= n
    ensures 0 < n / base < n
    ensures n == n / base * base + n % base
  {
    assert n == base * (n / base) + n % base;
    if n / base >= n {
      MulMono(2, base, n, n / base);
    }
  }

  lemma DivSmall(n: nat, base: nat)
    requires n < base
    ensures n / base == 0 && n % base == n
  {}

  lemma NumeralUnfolds(n: nat, base: nat, small: bool)
    requires 2 <= base <= 36 && n >= base
    ensures n % base < 36
    ensures Numeral(n, base, small) == Numeral(n / base, base, small) + [DigitChar(n % base, small)]
  {}

  lemma MulMono(a: nat, b: nat, x: nat, y: nat)
    requires a <= b && x <= y
    ensures a * x <= b * y
  {
    assert a * x <= a * y;
    assert a * y <= b * y;
  }

  /** Reading a numeral back gives the number. */
  lemma {:induction false} NumeralValue(n: nat, base: nat, small: bool)
    requires 2 <= base <= 36
    ensures Value(Numeral(n, base, small), base) == n
    decreases n
  {
    if n < base {
      assert [DigitChar(n, small)][..0] == "";
    } else {
      DivShrinks(n, base);
      NumeralValue(n / base, base, small);
      ValueAppend(Numeral(n / base, base, small), DigitChar(n % base, small), base);
    }
  }

  function Pow2(k: nat): (p: nat)
    ensures p > 0
  {
    if k == 0 then 1 else 2 * Pow2(k - 1)
  }

  /** A number below 2^k has a numeral of at most k digits (one for zero). */
  lemma {:induction false} NumeralLength(n: nat, base: nat, small: bool, k: nat)
    requires 2 <= base <= 36 && n < Pow2(k) && k >= 1
    ensures |Numeral(n, base, small)| <= k
    decreases k
  {
    if n >= base {
      DivShrinks(n, base);
      QuotientIsSmaller(n, base, n / base, k);
      NumeralUnfolds(n, base, small);
      NumeralLength(n / base, base, small, k - 1);
      hide Numeral, Pow2;
    }
  }

  lemma QuotientIsSmaller(n: nat, base: nat, q: nat, k: nat)
    requires 2 <= base && q * base <= n < Pow2(k) && k >= 1 && q > 0
    ensures q < Pow2(k - 1) && k >= 2
  {
    if q >= Pow2(k - 1) {
      MulMono(Pow2(k - 1), q, 2, base);
    }
  }

  lemma Pow2Of32()
    ensures Pow2(32) == TWO_TO_THE_32
  {
    assert Pow2(8) == 0x100;
    assert Pow2(16) == 0x1_0000;
    assert Pow2(24) == 0x100_0000;
  }
}
