/** What stands in the field of a number, column by column: the characters that flags, base,
    precision and width of src/printf.c:60-140 ask for. */
module NumberFields {
  import opened Numerals
  import opened Printf

  /** Sign and magnitude of a word, as the SIGN flag decides. */
  predicate IsMinus(num: uint32, ty: Flags) {
    ty.sign && num >= 0x8000_0000
  }

  lemma NoPadding(num: uint32, base: nat, prec: int, ty: Flags)
    requires 2 <= base <= 36
    ensures NumberText(num, base, -1, prec, ty)
         == SignText(num, ty) + (PrefixText(base, ty) + DigitsText(num, base, prec, ty))
  {
    var sign, prefix, digits := SignText(num, ty), PrefixText(base, ty), DigitsText(num, base, prec, ty);
    hide SignText, PrefixText, DigitsText;
    assert PadCount(num, base, -1, prec, ty) == 0;
    ConcatEmpty(sign + prefix);
    ConcatEmpty(sign);
    ConcatEmpty(sign + prefix + digits);
    ConcatAssoc(sign, prefix, digits);
  }

  /** Without sign flags and without a minus, the text is the prefix of the base, zeros up to
      the precision, and the numeral. */
  lemma BareText(num: uint32, base: nat, prec: int, ty: Flags)
    requires 2 <= base <= 36 && !IsMinus(num, ty) && !ty.plus && !ty.space
    ensures var d := Numeral(num, base, ty.small);
            NumberText(num, base, -1, prec, ty) ==
            (if ty.special && base == 16 then (if ty.small then "0x" else "0X")
             else if ty.special && base == 8 then "0" else "")
            + (Repeat('0', prec - |d|) + d)
  {
    hide NumberText, DigitsText;
    NoPadding(num, base, prec, ty);
    ConcatEmpty(PrefixText(base, ty) + DigitsText(num, base, prec, ty));
    DigitsAre(num, base, prec, ty);
  }

  lemma DigitsAre(num: uint32, base: nat, prec: int, ty: Flags)
    requires 2 <= base <= 36 && !IsMinus(num, ty)
    ensures var d := Numeral(num, base, ty.small); DigitsText(num, base, prec, ty) == Repeat('0', prec - |d|) + d
  {}

  /** A number that is not negative: '+' in the sign column with PLUS, a blank with SPACE alone,
      nothing with neither. */
  lemma SignColumn(num: uint32, base: nat, prec: int, ty: Flags)
    requires 2 <= base <= 36 && !IsMinus(num, ty)
    ensures NumberText(num, base, -1, prec, ty)
         == (if ty.plus then "+" else if ty.space then " " else "")
            + NumberText(num, base, -1, prec, ty.(plus := false, space := false))
  {
    hide NumberText, DigitsText, PrefixText;
    var bare := ty.(plus := false, space := false);
    NoPadding(num, base, prec, ty);
    NoPadding(num, base, prec, bare);
    SamePieces(num, base, prec, ty, bare);
    ConcatEmpty(PrefixText(base, bare) + DigitsText(num, base, prec, bare));
  }

  lemma SamePieces(num: uint32, base: nat, prec: int, ty: Flags, bare: Flags)
    requires 2 <= base <= 36 && bare == ty.(plus := false, space := false)
    ensures PrefixText(base, ty) == PrefixText(base, bare)
    ensures DigitsText(num, base, prec, ty) == DigitsText(num, base, prec, bare)
  {}

  /** A negative number is a minus in front of its magnitude, whatever PLUS and SPACE say. */
  lemma MinusColumn(num: uint32, base: nat, prec: int, ty: Flags)
    requires 2 <= base <= 36 && IsMinus(num, ty)
    ensures NumberText(num, base, -1, prec, ty)
         == "-" + NumberText(0x1_0000_0000 - num, base, -1, prec, ty.(sign := false, plus := false, space := false))
  {
    hide NumberText, Numeral;
    var m, bare := 0x1_0000_0000 - num, ty.(sign := false, plus := false, space := false);
    NoPadding(num, base, prec, ty);
    NoPadding(m, base, prec, bare);
    assert DigitsText(num, base, prec, ty) == DigitsText(m, base, prec, bare);
    assert PrefixText(base, ty) == PrefixText(base, bare);
    ConcatEmpty(PrefixText(base, bare) + DigitsText(m, base, prec, bare));
  }

  /** How many characters stand in front of the digits: one for a sign, and 0x or 0. */
  function HeadLength(num: uint32, base: nat, ty: Flags): nat {
    (if IsMinus(num, ty) || ty.plus || ty.space then 1 else 0)
    + (if !ty.special then 0 else if base == 16 then 2 else if base == 8 then 1 else 0)
  }

  /** The width only pads: with spaces behind the text, with spaces in front of it, or with
      zeros between its head and its digits. */
  lemma WidthPads(num: uint32, base: nat, width: int, prec: int, ty: Flags)
    requires 2 <= base <= 36
    ensures var t := NumberText(num, base, -1, prec, ty);
            var k := HeadLength(num, base, ty);
            && k <= |t|
            && NumberText(num, base, width, prec, ty)
               == if ty.left then t + Repeat(' ', width - |t|)
                  else if ty.zeroPad then t[..k] + (Repeat('0', width - |t|) + t[k..])
                  else Repeat(' ', width - |t|) + t
  {
    var sign, prefix, digits := SignText(num, ty), PrefixText(base, ty), DigitsText(num, base, prec, ty);
    var t := NumberText(num, base, -1, prec, ty);
    NoPadding(num, base, prec, ty);
    HeadIs(num, base, ty);
    var pad := PadCount(num, base, width, prec, ty);
    assert pad == Max(0, width - |t|);
    hide SignText, PrefixText, DigitsText, HeadLength, PadCount;
    ConcatAssoc(sign, prefix, digits);
    assert t == (sign + prefix) + digits;
    if ty.left {
    } else if ty.zeroPad {
      ConcatAssoc(sign + prefix, Repeat('0', pad), digits);
    } else {
      ConcatAssoc(Repeat(' ', pad), sign, prefix);
      ConcatAssoc(Repeat(' ', pad), sign + prefix, digits);
    }
  }

  lemma HeadIs(num: uint32, base: nat, ty: Flags)
    ensures HeadLength(num, base, ty) == |SignText(num, ty) + PrefixText(base, ty)|
  {}
}
