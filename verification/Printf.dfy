/** The formatting engine: `number`, `skip_atoi` and `vsprintf` of src/printf.c.

    Each method below works in place on the output buffer, as the C code does, and is
    proved to write exactly the text that a specification function describes. */
module Printf {
  import opened Numerals

  // ------------------------------------------------------- Printing one number

  /** The flag bits of src/printf.c:47-53. */
  datatype Flags = Flags(zeroPad: bool, sign: bool, plus: bool, space: bool,
                         left: bool, special: bool, small: bool)

  const NO_FLAGS := Flags(false, false, false, false, false, false, false)

  function Max(a: int, b: int): int {
    if a < b then b else a
  }

  /** The sign column: at most one character. */
  function SignText(num: uint32, ty: Flags): string {
    if ty.sign && IsNegative(num) then "-"
    else if ty.plus then "+"
    else if ty.space then " "
    else ""
  }

  /** The number that the digits denote: the unsigned word, or the magnitude of a signed one. */
  function Magnitude(num: uint32, ty: Flags): uint32 {
    if ty.sign && IsNegative(num) then Negate(num) else num
  }

  function PrefixText(base: nat, ty: Flags): string {
    if !ty.special then ""
    else if base == 8 then "0"
    else if base == 16 then (if ty.small then "0x" else "0X")
    else ""
  }

  /** The digits, extended with zeros on the left up to the precision. */
  function DigitsText(num: uint32, base: nat, precision: int, ty: Flags): string
    requires 2 <= base <= 36
  {
    var d := Numeral(Magnitude(num, ty), base, ty.small);
    Repeat('0', precision - |d|) + d
  }

  function PadCount(num: uint32, base: nat, size: int, precision: int, ty: Flags): nat
    requires 2 <= base <= 36
  {
    Max(0, size - |SignText(num, ty)| - |PrefixText(base, ty)| - |DigitsText(num, base, precision, ty)|)
  }

  /** The text of one number: the padding stands in one place only. */
  function NumberText(num: uint32, base: nat, size: int, precision: int, ty: Flags): string
    requires 2 <= base <= 36
  {
    var sign := SignText(num, ty);
    var prefix := PrefixText(base, ty);
    var digits := DigitsText(num, base, precision, ty);
    var pad := PadCount(num, base, size, precision, ty);
    if ty.left then sign + prefix + digits + Repeat(' ', pad)
    else if ty.zeroPad then sign + prefix + Repeat('0', pad) + digits
    else Repeat(' ', pad) + sign + prefix + digits
  }

  /** `number` writes max(width, sign + prefix + max(digit count, precision)) characters,
      for every combination of flags. */
  lemma NumberTextLength(num: uint32, base: nat, size: int, precision: int, ty: Flags)
    requires 2 <= base <= 36
    ensures |NumberText(num, base, size, precision, ty)|
         == Max(size, |SignText(num, ty)| + |PrefixText(base, ty)|
                      + Max(|Numeral(Magnitude(num, ty), base, ty.small)|, precision))
  {
    var d := Numeral(Magnitude(num, ty), base, ty.small);
    assert |DigitsText(num, base, precision, ty)| == Max(|d|, precision);
  }

  /** The buffer holds `start` and then `text`, up to `at`. */
  ghost predicate Written(buf: array<char>, at: nat, start: string, text: string)
    reads buf
  {
    at <= buf.Length && buf[..at] == start + text
  }

  /** The loop `while (size-- > 0) *str++ = c;`: pads, and leaves `size` below zero. */
  method Pad(buf: array<char>, at: nat, size: int, c: char, ghost start: string, ghost text: string)
    returns (end: nat, left: int)
    requires Written(buf, at, start, text) && at + Max(0, size) <= buf.Length
    modifies buf
    ensures end == at + Max(0, size) && left == (if size < 0 then size else 0) - 1
    ensures Written(buf, end, start, text + Repeat(c, size))
    ensures forall k :: end <= k < buf.Length ==> buf[k] == old(buf[k])
  {
    end, left := at, size;
    while left > 0
      invariant left <= size && end == at + size - left
      invariant left >= 0 || left == size
      invariant end <= buf.Length
      invariant buf[..end] == start + (text + Repeat(c, size - left))
      invariant forall k :: end <= k < buf.Length ==> buf[k] == old(buf[k])
    {
      ghost var before := buf[..end];
      buf[end] := c;
      end, left := end + 1, left - 1;
      assert buf[..end] == before + [c];
      assert Repeat(c, size - left) == Repeat(c, size - left - 1) + [c];
    }
    left := left - 1;
  }

  /** `*str++ = c;` */
  method Put(buf: array<char>, at: nat, c: char, ghost start: string, ghost text: string) returns (end: nat)
    requires Written(buf, at, start, text) && at < buf.Length
    modifies buf
    ensures end == at + 1 && Written(buf, end, start, text + [c])
    ensures forall k :: end <= k < buf.Length ==> buf[k] == old(buf[k])
  {
    ghost var before := buf[..at];
    buf[at] := c;
    end := at + 1;
    assert buf[..end] == before + [c];
  }

  /** The digit loop of src/printf.c:94-101: fills `tmp` least significant digit first.
      Its 36 cells are enough, because 32 digits are. */
  method CollectDigits(tmp: array<char>, num: uint32, base: nat, small: bool) returns (i: nat)
    requires tmp.Length == 36 && 2 <= base <= 36
    modifies tmp
    ensures 1 <= i <= 32 && i == |Numeral(num, base, small)|
    ensures forall k :: 0 <= k < i ==> tmp[k] == Numeral(num, base, small)[i - 1 - k]
  {
    hide Numeral, DigitChar;
    ghost var text := Numeral(num, base, small);
    NumeralLength(num, base, small, 32) by { Pow2Of32(); }
    NumeralOfDigit(num, base, small);
    i := 0;
    if num == 0 {
      tmp[i] := '0';
      i := i + 1;
    } else {
      var n: nat := num;
      ghost var tail := "";
      while n != 0
        invariant text == (if n == 0 then "" else Numeral(n, base, small)) + tail
        invariant i == |tail| && (n != 0 ==> i < |text|)
        invariant forall k :: 0 <= k < i ==> tmp[k] == tail[i - 1 - k]
        decreases n
      {
        NumeralStep(n, base, small, tail, n / base, n % base);
        tmp[i] := DigitChar(n % base, small);
        tail := [tmp[i]] + tail;
        i, n := i + 1, n / base;
      }
    }
  }

  lemma NumeralOfDigit(n: nat, base: nat, small: bool)
    requires 2 <= base <= 36
    ensures n < base ==> Numeral(n, base, small) == [DigitChar(n, small)]
    ensures n == 0 ==> Numeral(n, base, small) == "0"
  {}

  /** One round of the digit loop moves the last digit of what is left to print into the tail. */
  lemma NumeralStep(n: nat, base: nat, small: bool, tail: string, q: nat, d: nat)
    requires 2 <= base <= 36 && n > 0 && q == n / base && d == n % base
    ensures q < n && d < 36
    ensures Numeral(n, base, small) + tail
         == (if q == 0 then "" else Numeral(q, base, small)) + ([DigitChar(d, small)] + tail)
  {
    if n >= base {
      DivShrinks(n, base);
      NumeralUnfolds(n, base, small);
      ConcatAssoc(Numeral(q, base, small), [DigitChar(d, small)], tail);
    } else {
      DivSmall(n, base);
      ConcatEmpty([DigitChar(n, small)] + tail);
    }
  }

  /** Copies `tmp` backwards: `while (i-- > 0) *str++ = tmp[i];` */
  method CopyReversed(buf: array<char>, at: nat, tmp: array<char>, count: nat, ghost digits: string,
                      ghost start: string, ghost text: string) returns (end: nat)
    requires buf != tmp && count == |digits| <= tmp.Length && at + count <= buf.Length
    requires forall k :: 0 <= k < count ==> tmp[k] == digits[count - 1 - k]
    requires Written(buf, at, start, text)
    modifies buf
    ensures end == at + count && Written(buf, end, start, text + digits)
    ensures forall k :: end <= k < buf.Length ==> buf[k] == old(buf[k])
  {
    var i := count;
    end := at;
    while i > 0
      invariant 0 <= i <= count && end == at + count - i
      invariant forall k :: 0 <= k < count ==> tmp[k] == digits[count - 1 - k]
      invariant buf[..end] == start + (text + digits[..count - i])
      invariant forall k :: end <= k < buf.Length ==> buf[k] == old(buf[k])
    {
      i := i - 1;
      ghost var before := buf[..end];
      assert digits[..count - i] == digits[..count - i - 1] + [tmp[i]];
      buf[end] := tmp[i];
      end := end + 1;
      assert buf[..end] == before + [tmp[i]];
    }
    assert digits[..count] == digits;
  }

  datatype Option<+T> = None | Some(value: T)

  /** The sign character of src/printf.c:77-82, NUL for none, and the word that is left to print. */
  method TakeSign(num: uint32, ty: Flags) returns (sign: char, n: uint32)
    ensures SignText(num, ty) == if sign == '\0' then "" else [sign]
    ensures n == Magnitude(num, ty)
  {
    n := num;
    if ty.sign && IsNegative(n) {
      sign := '-';
      n := Negate(n);
    } else {
      sign := if ty.plus then '+' else if ty.space then ' ' else '\0';
    }
  }

  /** src/printf.c:113-123. */
  method PutHead(buf: array<char>, at: nat, sign: char, base: nat, ty: Flags,
                 ghost start: string, ghost text: string) returns (end: nat)
    requires Written(buf, at, start, text)
    requires at + (if sign == '\0' then 0 else 1) + |PrefixText(base, ty)| <= buf.Length
    modifies buf
    ensures end == at + (if sign == '\0' then 0 else 1) + |PrefixText(base, ty)|
    ensures Written(buf, end, start, text + ((if sign == '\0' then "" else [sign]) + PrefixText(base, ty)))
    ensures forall k :: end <= k < buf.Length ==> buf[k] == old(buf[k])
  {
    end := at;
    ghost var head := "";
    if sign != '\0' {
      end := Put(buf, end, sign, start, text);
      head := [sign];
    }
    assert text + head == if sign == '\0' then text else text + [sign];
    if ty.special {
      if base == 8 {
        end := Put(buf, end, '0', start, text + head);
      } else if base == 16 {
        end := Put(buf, end, '0', start, text + head);
        end := Put(buf, end, if ty.small then 'x' else 'X', start, text + head + ['0']);
      }
    }
    assert text + head + PrefixText(base, ty) == text + (head + PrefixText(base, ty));
  }

  /** The pieces that src/printf.c:108-137 writes, in that order; at most one of the three
      paddings is not empty. */
  ghost function Pieces(before: int, head: string, fill: int, zeros: int, digits: string, after: int): string {
    ((((("" + Repeat(' ', before)) + head) + Repeat('0', fill)) + Repeat('0', zeros)) + digits) + Repeat(' ', after)
  }

  /** src/printf.c:108-137, with `size` and `precision` as the code has left them there. */
  method PutNumber(buf: array<char>, at: nat, sign: char, base: nat, width: int, count: nat, prec: nat,
                   zeroPad: bool, ty: Flags, tmp: array<char>, ghost digits: string, ghost start: string)
    returns (str: nat)
    requires zeroPad ==> !ty.left
    requires buf != tmp && count == |digits| <= tmp.Length && count <= prec
    requires forall k :: 0 <= k < count ==> tmp[k] == digits[count - 1 - k]
    requires Written(buf, at, start, "")
    requires at + Max(0, width) + (if sign == '\0' then 0 else 1) + |PrefixText(base, ty)| + prec <= buf.Length
    modifies buf
    ensures Written(buf, str, start,
                    Pieces(if zeroPad || ty.left then 0 else width,
                           (if sign == '\0' then "" else [sign]) + PrefixText(base, ty),
                           if zeroPad then width else 0,
                           prec - count, digits,
                           if ty.left then width else 0))
    ensures str == at + Max(0, width) + (if sign == '\0' then 0 else 1) + |PrefixText(base, ty)| + prec
    ensures forall k :: str <= k < buf.Length ==> buf[k] == old(buf[k])
  {
    ghost var text := "";
    var size, precision: int := width, prec;
    str := at;
    str, size := PadWhen(!zeroPad && !ty.left, buf, str, size, ' ', start, text);
    text := text + Repeat(' ', if zeroPad || ty.left then 0 else width);
    str := PutHead(buf, str, sign, base, ty, start, text);
    text := text + ((if sign == '\0' then "" else [sign]) + PrefixText(base, ty));
    ghost var size1 := size;
    str, size := PadWhen(!ty.left, buf, str, size, if zeroPad then '0' else ' ', start, text);
    assert Repeat(if zeroPad then '0' else ' ', if ty.left then 0 else size1)
        == Repeat('0', if zeroPad then width else 0);
    text := text + Repeat('0', if zeroPad then width else 0);
    str, precision := Pad(buf, str, precision - count, '0', start, text);
    text := text + Repeat('0', prec - count);
    str := CopyReversed(buf, str, tmp, count, digits, start, text);
    text := text + digits;
    ghost var size2 := size;
    str, size := Pad(buf, str, size, ' ', start, text);
    assert Repeat(' ', size2) == Repeat(' ', if ty.left then width else 0);
  }

  /** `if (wanted) while (size-- > 0) *str++ = c;` */
  method PadWhen(wanted: bool, buf: array<char>, at: nat, size: int, c: char, ghost start: string, ghost text: string)
    returns (end: nat, left: int)
    requires Written(buf, at, start, text) && (wanted ==> at + Max(0, size) <= buf.Length)
    modifies buf
    ensures end == at + (if wanted then Max(0, size) else 0)
    ensures left == if wanted then (if size < 0 then size else 0) - 1 else size
    ensures Written(buf, end, start, text + Repeat(c, if wanted then size else 0))
    ensures forall k :: end <= k < buf.Length ==> buf[k] == old(buf[k])
  {
    end, left := at, size;
    if wanted {
      end, left := Pad(buf, at, size, c, start, text);
    } else {
      assert text + Repeat(c, 0) == text;
    }
  }

  lemma PiecesAreTheText(num: uint32, base: nat, size: int, precision: int, ty: Flags,
                         head: string, digits: string, left: int, zeros: int)
    requires 2 <= base <= 36
    requires head == SignText(num, ty) + PrefixText(base, ty)
    requires digits == Numeral(Magnitude(num, ty), base, ty.small)
    requires zeros == Max(|digits|, precision) - |digits|
    requires left == size - |head| - zeros - |digits|
    ensures Pieces(if ty.zeroPad || ty.left then 0 else left, head,
                   if ty.zeroPad && !ty.left then left else 0, zeros, digits,
                   if ty.left then left else 0)
         == NumberText(num, base, size, precision, ty)
    ensures |NumberText(num, base, size, precision, ty)| == Max(0, left) + |head| + zeros + |digits|
  {
    var sign, prefix, pad := SignText(num, ty), PrefixText(base, ty), Max(0, left);
    assert DigitsText(num, base, precision, ty) == Repeat('0', zeros) + digits;
    assert PadCount(num, base, size, precision, ty) == pad;
    if ty.left {
      PiecesAfter(sign, prefix, zeros, digits, left);
    } else if ty.zeroPad {
      PiecesFill(sign, prefix, left, zeros, digits);
    } else {
      PiecesBefore(left, sign, prefix, zeros, digits);
    }
  }

  lemma PiecesAfter(sign: string, prefix: string, zeros: int, digits: string, pad: int)
    ensures Pieces(0, sign + prefix, 0, zeros, digits, pad)
         == sign + prefix + (Repeat('0', zeros) + digits) + Repeat(' ', pad)
  {
    ConcatEmpty(sign + prefix);
    ConcatAssoc(sign + prefix, Repeat('0', zeros), digits);
  }

  lemma PiecesFill(sign: string, prefix: string, pad: int, zeros: int, digits: string)
    ensures Pieces(0, sign + prefix, pad, zeros, digits, 0)
         == sign + prefix + Repeat('0', pad) + (Repeat('0', zeros) + digits)
  {
    ConcatEmpty(sign + prefix);
    ConcatAssoc(sign + prefix + Repeat('0', pad), Repeat('0', zeros), digits);
    ConcatEmpty(sign + prefix + Repeat('0', pad) + (Repeat('0', zeros) + digits));
  }

  lemma PiecesBefore(pad: int, sign: string, prefix: string, zeros: int, digits: string)
    ensures Pieces(pad, sign + prefix, 0, zeros, digits, 0)
         == Repeat(' ', pad) + sign + prefix + (Repeat('0', zeros) + digits)
  {
    ConcatEmpty(Repeat(' ', pad));
    ConcatAssoc(Repeat(' ', pad), sign, prefix);
    ConcatEmpty(Repeat(' ', pad) + sign + prefix);
    ConcatAssoc(Repeat(' ', pad) + sign + prefix, Repeat('0', zeros), digits);
    ConcatEmpty(Repeat(' ', pad) + sign + prefix + (Repeat('0', zeros) + digits));
  }

  /** src/printf.c:84-93: the width that sign and prefix leave over. */
  method Reserve(width: int, sign: char, base: nat, ty: Flags) returns (size: int)
    ensures size == width - (if sign == '\0' then 0 else 1) - |PrefixText(base, ty)|
  {
    size := width;
    if sign != '\0' {
      size := size - 1;
    }
    if ty.special {
      if base == 16 {
        size := size - 2;
      } else if base == 8 {
        size := size - 1;
      }
    }
  }

  /** src/printf.c:60-140. The result is the end of the text, or None (the null pointer)
      for a base that the digits do not cover. */
  method Number(buf: array<char>, at: nat, num: uint32, base: int, width: int, prec: int, ty: Flags)
    returns (end: Option<nat>)
    requires at <= buf.Length
    requires 2 <= base <= 36 ==> at + |NumberText(num, base, width, prec, ty)| <= buf.Length
    modifies buf
    ensures end.Some? <==> 2 <= base <= 36
    ensures end.None? ==> buf[..] == old(buf[..])
    ensures end.Some? ==> end.value == at + |NumberText(num, base, width, prec, ty)|
    ensures end.Some? ==> Written(buf, end.value, old(buf[..at]), NumberText(num, base, width, prec, ty))
    ensures end.Some? ==> forall k :: end.value <= k < buf.Length ==> buf[k] == old(buf[k])
  {
    hide NumberText, Numeral, SignText, PrefixText;
    if base < 2 || base > 36 {
      return None;
    }
    var zeroPad := ty.zeroPad && !ty.left;
    var sign, n := TakeSign(num, ty);
    var size := Reserve(width, sign, base, ty);
    var precision := prec;
    var tmp := new char[36];
    var i := CollectDigits(tmp, n, base, ty.small);
    if i > precision {
      precision := i;
    }
    size := size - precision;
    ghost var head, digits := SignText(num, ty) + PrefixText(base, ty), Numeral(n, base, ty.small);
    PiecesAreTheText(num, base, width, prec, ty, head, digits, size, precision - i);
    var str := PutNumber(buf, at, sign, base, size, i, precision, zeroPad, ty, tmp, digits, buf[..at]);
    end := Some(str);
  }
}
