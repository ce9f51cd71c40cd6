/** %x prints lower-case digits, but the `isxdigit` of the scanner knows upper case only
    (src/_doscan.c:6-7): when a %x scans back what a %x printed. */
module LowerHex {
  import opened Numerals
  import opened Printf
  import opened Vsprintf
  import opened Strtol
  import opened Streams
  import opened Collect
  import opened ScanSpec
  import opened NumberRoundTrip
  import opened FormatRoundTrip

  /** No digit of the number in base 16 is a letter. */
  predicate NoLetter(n: nat) {
    n % 16 < 10 && (n >= 16 ==> NoLetter(n / 16))
  }

  lemma {:induction false} NoLetterIff(n: nat)
    ensures NoLetter(n) <==> forall i :: 0 <= i < |Numeral(n, 16, true)| ==> IsScanDigit(Numeral(n, 16, true)[i], 16)
    decreases n
  {
    var t := Numeral(n, 16, true);
    LastDigit(n % 16);
    if n >= 16 {
      NoLetterIff(n / 16);
      NumeralUnfolds(n, 16, true);
      hide Numeral, IsScanDigit;
      var u := Numeral(n / 16, 16, true);
      assert t[|u|] == DigitChar(n % 16, true);
      assert forall i :: 0 <= i < |u| ==> u[i] == t[i];
    } else {
      DivSmall(n, 16);
      assert t == [DigitChar(n, true)] && t[0] == DigitChar(n % 16, true);
    }
  }

  lemma LastDigit(d: nat)
    requires d < 16
    ensures IsScanDigit(DigitChar(d, true), 16) <==> d < 10
  {}

  /** What a single integer conversion makes of a whole input. */
  lemma ScanOneInt(inp: string, kind: char, d: Directive, c: string)
    requires inp != "" && !IsSpace(inp[0]) && IsIntKind(kind)
    requires d == Directive(false, false, 0, Int, [kind])
    requires c == inp[..LengthOf(kind, inp, NUMLEN)]
    ensures Scan(inp, ['%', kind])
         == if c == "" || BareSign(c) then Result(0, [], |c|)
            else Result(1, [IntStore(Int, IntValue(d, c))], |c|)
  {
    var st := Initial(['%', kind]);
    assert inp[0..] == inp && ['%', kind] == ['%', kind] + "";
    assert [kind] + "" == [kind] && [kind][1..] == "";
    ItemIsConversion(inp, st, kind, "");
    IntUnfold(inp, st, d, |c|);
    assert inp[0..0 + |c|] == c;
    OneTurn(inp, st, IntOutcome(st, d, c, At(inp, 0)));
    OutcomeOfOne(st, d, c, At(inp, 0));
  }

  lemma OneTurn(inp: string, st: State, o: Outcome)
    requires st.pos <= |inp| && Item(inp, st) == o && !IsSpace(CharAt(st.f, 0))
    requires o.Go? ==> o.st.f == ""
    ensures Run(inp, st) == if o.Go? then Final(o.st) else o.r
  {
    hide Item;
    assert Turn(inp, st) == o;
    if o.Go? {
      RunEnds(inp, o.st, o.st);
    }
  }

  lemma OutcomeOfOne(st: State, d: Directive, c: string, ic: Input)
    requires st.pos == 0 == st.done && st.stores == []
    requires d.rest != "" && d.rest[1..] == "" && !d.noAssign && d.size == Int
    ensures var o := IntOutcome(st, d, c, ic);
            && (o.Go? ==> o.st.f == "")
            && (if o.Go? then Final(o.st) else o.r)
            == if c == "" || BareSign(c) then Result(0, [], |c|) else Result(1, [IntStore(Int, IntValue(d, c))], |c|)
  {
    hide IntValue;
  }

  lemma ReachOfHex(t: string)
    requires 1 <= |t| <= 32 && !IsSign(t[0]) && (t[0] == '0' ==> t == "0")
    ensures LengthOf('x', t, NUMLEN) == |t| <==> forall i :: 0 <= i < |t| ==> IsScanDigit(t[i], 16)
  {
    if t[0] == '0' {
      assert t[1..] == "";
      assert LengthOf('x', t, NUMLEN) == 1 + ScanRun("", 16, NUMLEN - 1);
    } else {
      assert t[0..] == t;
      assert LengthOf('x', t, NUMLEN) == ScanRun(t, 16, NUMLEN);
    }
  }

  lemma LowerShape(n: uint32, t: string)
    requires t == Numeral(n, 16, true)
    ensures 1 <= |t| <= 32 && !IsSign(t[0]) && !IsSpace(t[0]) && (t[0] == '0' ==> t == "0")
  {
    hide Numeral, Pow2, DigitValue, DigitChar, IsSign, IsSpace;
    NumeralOfDigit(n, 16, true);
    NumeralDigits(n, 16, true);
    Pow2Of32();
    NumeralLength(n, 16, true, 32);
    DigitIsPlain(t[0]);
  }

  lemma DigitIsPlain(c: char)
    requires IsDigitIn(c, 16)
    ensures !IsSign(c) && !IsSpace(c)
  {}

  /** How far `o_collect` gets in the lower-case numeral. */
  lemma LowerIsCollected(n: uint32, t: string)
    requires t == Numeral(n, 16, true)
    ensures LengthOf('x', t, NUMLEN) == |t| <==> NoLetter(n)
    ensures t != "" && !IsSpace(t[0]) && !BareSign(t)
  {
    hide Numeral, NoLetter, LengthOf, IsScanDigit, Pow2;
    LowerShape(n, t);
    NoLetterIff(n);
    ReachOfHex(t);
  }

  lemma LowerScansBack(w: uint32, d: Directive)
    requires d == Directive(false, false, 0, Int, ['x'])
    ensures IntValue(d, Numeral(w, 16, true)) == w
  {
    PlainText(w, 16, NO_FLAGS.(small := true));
    ConcatEmpty(Numeral(w, 16, true));
    NumberScansBack(w, 16, -1, -1, NO_FLAGS.(small := true), 16);
  }

  lemma LowerHexText(w: uint32)
    ensures Format("%x", [Word(w)], 0).text == Numeral(w, 16, true)
  {
    hide NumberText;
    PlainText(w, 16, NO_FLAGS.(small := true));
    ConcatEmpty(Numeral(w, 16, true));
    assert "%x"[1..] == "x" == ['x'] + "";
    assert "x"[1..] == "";
    OneConversion("%x", Word(w), Spec(NO_FLAGS, -1, -1, 'x', "", [Word(w)]));
  }

  /** A %x scans back what a %x printed exactly when no hexadecimal digit is a letter. */
  lemma LowerHexScansBackIff(w: uint32)
    ensures var text := Format("%x", [Word(w)], 0).text;
            Scan(text, "%x") == Result(1, [IntStore(Int, w)], |text|) <==> NoLetter(w)
  {
    var t := Numeral(w, 16, true);
    var d := Directive(false, false, 0, Int, ['x']);
    LowerHexText(w);
    LowerIsCollected(w, t);
    assert t[..|t|] == t;
    ScanOneInt(t, 'x', d, t[..LengthOf('x', t, NUMLEN)]);
    LowerScansBack(w, d);
    hide IntValue, Numeral, Format, Scan, LengthOf;
    assert "%x" == ['%', 'x'];
  }
}
