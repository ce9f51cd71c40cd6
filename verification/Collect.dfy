/** `o_collect` of src/_doscan.c:226-289: the longest piece of the input that reads as an
    integer of the wanted kind, at most `width` characters of it. */
module Collect {
  import opened Numerals
  import opened Streams
  import opened Strtol

  // ------------------------------------------------------------ Specification

  /** The base that the conversion character asks for (src/_doscan.c:239-249). */
  function InitialBase(kind: char): nat {
    match kind
    case 'i' => 16
    case 'p' => 16
    case 'x' => 16
    case 'X' => 16
    case 'o' => 8
    case 'b' => 2
    case _ => 10
  }

  /** The digits that the scanner collects: its `isxdigit` knows upper case only
      (src/_doscan.c:6-7). */
  predicate IsScanDigit(c: char, base: nat) {
    ('0' <= c <= '9' && c as int - '0' as int < base) || (base == 16 && 'A' <= c <= 'F')
  }

  function ScanRun(s: string, base: nat, limit: nat): (n: nat)
    ensures n <= limit && n <= |s|
    ensures forall i :: 0 <= i < n ==> IsScanDigit(s[i], base)
    ensures n < limit && n < |s| ==> !IsScanDigit(s[n], base)
  {
    if limit > 0 && s != "" && IsScanDigit(s[0], base) then 1 + ScanRun(s[1..], base, limit - 1) else 0
  }

  /** How far sign, 0x prefix and digits reach, and the base in force. */
  datatype Reach = Reach(sign: nat, prefix: nat, base: nat, digits: nat)

  function ReachOf(kind: char, s: string, width: nat): (r: Reach)
    requires width >= 1
    ensures r.sign + r.prefix <= width && r.sign + r.prefix <= |s|
  {
    var sign := if IsSign(CharAt(s, 0)) then 1 else 0;
    var zero := InitialBase(kind) == 16 && sign < width && CharAt(s, sign) == '0';
    var prefix := if !zero then 0 else if sign + 1 < width && IsX(CharAt(s, sign + 1)) then 2 else 1;
    var base := if kind != 'i' then InitialBase(kind) else if prefix == 0 then 10 else if prefix == 1 then 8 else 16;
    Reach(sign, prefix, base, ScanRun(s[sign + prefix..], base, width - sign - prefix))
  }

  function LengthOf(kind: char, s: string, width: nat): (n: nat)
    requires width >= 1
    ensures n <= width && n <= |s|
  {
    var r := ReachOf(kind, s, width);
    r.sign + r.prefix + r.digits
  }

  /** The base handed back: for %i it is 0, so that strtol finds it again. */
  function BaseFor(kind: char): nat {
    if kind == 'i' then 0 else InitialBase(kind)
  }

  // ---------------------------------------------------------- Implementation

  /** While `more` holds, `c` is the input character at `i`, already taken from the stream. */
  ghost predicate Pending(stream: Stream, inp: string, i: nat, c: Input, more: bool)
    reads stream, stream.buf
  {
    if more then
      && c == At(inp, i)
      && stream.Holds(inp, if c.Ch? then i + 1 else i)
      && (c.Ch? ==> stream.count >= 0)
    else stream.Holds(inp, i)
  }

  /** The first `n` cells hold the input from `p` on. */
  ghost predicate Copied(inp_buf: array<char>, n: nat, inp: string, p: nat)
    reads inp_buf
  {
    n <= inp_buf.Length && p + n <= |inp| && inp_buf[..n] == inp[p..p + n]
  }

  /** `*bufp++ = c; if (--width) c = getc(stream);` */
  method Take(stream: Stream, c0: Input, width0: nat, inp_buf: array<char>, at: nat, ghost inp: string, ghost p: nat)
    returns (c: Input, width: nat)
    requires stream.buf != inp_buf && c0.Ch? && width0 > 0 && at < inp_buf.Length
    requires Copied(inp_buf, at, inp, p) && Pending(stream, inp, p + at, c0, true)
    modifies stream, inp_buf
    ensures width == width0 - 1 && (width == 0 ==> c == c0)
    ensures Copied(inp_buf, at + 1, inp, p) && Pending(stream, inp, p + at + 1, c, width > 0)
  {
    c, width := c0, width0 - 1;
    inp_buf[at] := c.c;
    assert inp[p..p + at + 1] == inp[p..p + at] + [inp[p + at]];
    assert inp_buf[..at + 1] == inp_buf[..at] + [c.c];
    if width > 0 {
      c := stream.Getc(inp, p + at + 1);
    }
  }

  lemma ScanRunStep(inp: string, i: nat, base: nat, width: nat)
    requires i < |inp| && width > 0 && IsScanDigit(inp[i], base)
    ensures ScanRun(inp[i..], base, width) == 1 + ScanRun(inp[i + 1..], base, width - 1)
  {
    assert inp[i..][1..] == inp[i + 1..];
  }

  lemma ScanRunEnds(inp: string, i: nat, base: nat, width: nat)
    requires i <= |inp|
    ensures width == 0 || i == |inp| || !IsScanDigit(inp[i], base) ==> ScanRun(inp[i..], base, width) == 0
  {}

  /** The digit loop, src/_doscan.c:272-282. */
  method CollectDigits(stream: Stream, c0: Input, base: nat, width0: nat, inp_buf: array<char>, at: nat,
                       ghost inp: string, ghost p: nat)
    returns (c: Input, width: nat, end: nat)
    requires stream.buf != inp_buf && Copied(inp_buf, at, inp, p)
    requires at + ScanRun(inp[p + at..], base, width0) <= inp_buf.Length
    requires Pending(stream, inp, p + at, c0, width0 > 0)
    modifies stream, inp_buf
    ensures end == at + ScanRun(inp[p + at..], base, width0) && end + width == at + width0
    ensures Copied(inp_buf, end, inp, p) && Pending(stream, inp, p + end, c, width > 0)
  {
    hide ScanRun;
    c, width, end := c0, width0, at;
    while width > 0 && c.Ch? && IsScanDigit(c.c, base)
      invariant at <= end && end + width == at + width0
      invariant Copied(inp_buf, end, inp, p)
      invariant Pending(stream, inp, p + end, c, width > 0)
      invariant ScanRun(inp[p + at..], base, width0) == end - at + ScanRun(inp[p + end..], base, width)
      decreases width
    {
      ScanRunStep(inp, p + end, base, width);
      c, width := Take(stream, c, width, inp_buf, end, inp, p);
      end := end + 1;
    }
    ScanRunEnds(inp, p + end, base, width);
  }

  /** What the pending character says about the text from `p` on. */
  lemma PendingAt(stream: Stream, inp: string, p: nat, at: nat, c: Input, s: string)
    requires p <= |inp| && s == inp[p..] && Pending(stream, inp, p + at, c, true)
    ensures CharAt(s, at) == if c.Ch? then c.c else '\0'
  {}

  /** The sign, src/_doscan.c:251-255. */
  method CollectSign(c0: Input, stream: Stream, width0: nat, inp_buf: array<char>, ghost inp: string, ghost p: nat)
    returns (c: Input, width: nat, len: nat)
    requires stream.buf != inp_buf && width0 >= 1 && 1 <= inp_buf.Length
    requires c0.Ch? && Pending(stream, inp, p, c0, true)
    modifies stream, inp_buf
    ensures len == (if IsSign(CharAt(inp[p..], 0)) then 1 else 0) && width == width0 - len
    ensures Copied(inp_buf, len, inp, p) && Pending(stream, inp, p + len, c, width > 0)
  {
    c, width, len := c0, width0, 0;
    assert inp[p..p + 0] == "";
    PendingAt(stream, inp, p, 0, c, inp[p..]);
    if c.c == '-' || c.c == '+' {
      c, width := Take(stream, c, width, inp_buf, len, inp, p);
      len := 1;
    }
  }

  lemma PrefixParts(kind: char, s: string, at: nat, width: nat, r: Reach)
    requires at + width >= 1 && r == ReachOf(kind, s, at + width) && at == r.sign
    ensures r.prefix == if width == 0 || InitialBase(kind) != 16 || CharAt(s, at) != '0' then 0
                        else if width > 1 && IsX(CharAt(s, at + 1)) then 2 else 1
    ensures r.base == if kind != 'i' then InitialBase(kind)
                      else if r.prefix == 0 then 10 else if r.prefix == 1 then 8 else 16
  {}

  /** The prefix, src/_doscan.c:257-270, which settles the base of a %i. */
  method CollectPrefix(kind: char, c0: Input, stream: Stream, width0: nat, inp_buf: array<char>, at: nat,
                       ghost inp: string, ghost p: nat, ghost r: Reach)
    returns (c: Input, width: nat, len: nat, base: nat)
    requires stream.buf != inp_buf && p <= |inp| && at + width0 >= 1
    requires r == ReachOf(kind, inp[p..], at + width0) && at == r.sign && at + r.prefix <= inp_buf.Length
    requires Copied(inp_buf, at, inp, p) && Pending(stream, inp, p + at, c0, width0 > 0)
    modifies stream, inp_buf
    ensures len == at + r.prefix && base == r.base && width == width0 - r.prefix
    ensures Copied(inp_buf, len, inp, p) && Pending(stream, inp, p + len, c, width > 0)
  {
    PrefixParts(kind, inp[p..], at, width0, r);
    hide ReachOf, ScanRun, Pending, CharAt, Copied;
    c, width, len, base := c0, width0, at, InitialBase(kind);
    if width > 0 {
      PendingAt(stream, inp, p, at, c, inp[p..]);
    }
    if width > 0 && c == Ch('0') && base == 16 {
      c, width := Take(stream, c, width, inp_buf, len, inp, p);
      len := len + 1;
      if width > 0 {
        PendingAt(stream, inp, p, len, c, inp[p..]);
      }
      if c != Ch('x') && c != Ch('X') {
        if kind == 'i' {
          base := 8;
        }
      } else if width > 0 {
        c, width := Take(stream, c, width, inp_buf, len, inp, p);
        len := len + 1;
      }
    } else if kind == 'i' {
      base := 10;
    }
  }

  lemma ReachParts(kind: char, inp: string, p: nat, width: nat, r: Reach)
    requires width >= 1 && p <= |inp| && r == ReachOf(kind, inp[p..], width)
    ensures r.sign == if IsSign(CharAt(inp[p..], 0)) then 1 else 0
    ensures BaseFor(kind) == if kind == 'i' then 0 else r.base
    ensures r.sign + r.prefix <= width && p + r.sign + r.prefix <= |inp|
    ensures r.digits == ScanRun(inp[p + (r.sign + r.prefix)..], r.base, width - r.sign - r.prefix)
    ensures LengthOf(kind, inp[p..], width) == r.sign + r.prefix + r.digits
  {
    assert inp[p..][r.sign + r.prefix..] == inp[p + (r.sign + r.prefix)..];
  }

  /** `o_collect`: `c` is the input character at `p`. The buffer must have room for what is
      collected and for its terminator. */
  method OCollect(c0: Input, stream: Stream, kind: char, width0: nat, inp_buf: array<char>,
                  ghost inp: string, ghost p: nat)
    returns (len: nat, basep: nat)
    requires stream.buf != inp_buf && width0 >= 1 && c0.Ch? && Pending(stream, inp, p, c0, true)
    requires LengthOf(kind, inp[p..], width0) + 1 <= inp_buf.Length
    modifies stream, stream.buf, inp_buf
    ensures len == LengthOf(kind, inp[p..], width0) && basep == BaseFor(kind)
    ensures p + len <= |inp| && inp_buf[..len] == inp[p..p + len] && inp_buf[len] == '\0'
    ensures stream.Holds(inp, p + len)
  {
    ghost var r := ReachOf(kind, inp[p..], width0);
    ReachParts(kind, inp, p, width0, r);
    hide ScanRun, IsScanDigit, ReachOf, LengthOf, IsSign, Pending, CharAt, InitialBase, BaseFor;
    var c, width;
    c, width, len := CollectSign(c0, stream, width0, inp_buf, inp, p);
    len, basep := CollectRest(c, stream, kind, width, inp_buf, len, inp, p, r);
  }

  /** src/_doscan.c:257-289: what follows the sign. */
  method CollectRest(c0: Input, stream: Stream, kind: char, width0: nat, inp_buf: array<char>, at: nat,
                     ghost inp: string, ghost p: nat, ghost r: Reach)
    returns (len: nat, basep: nat)
    requires stream.buf != inp_buf && p <= |inp| && at + width0 >= 1
    requires r == ReachOf(kind, inp[p..], at + width0) && at == r.sign
    requires r.sign + r.prefix + r.digits + 1 <= inp_buf.Length
    requires Copied(inp_buf, at, inp, p) && Pending(stream, inp, p + at, c0, width0 > 0)
    modifies stream, stream.buf, inp_buf
    ensures len == r.sign + r.prefix + r.digits && basep == BaseFor(kind)
    ensures Copied(inp_buf, len, inp, p) && inp_buf[len] == '\0' && stream.Holds(inp, p + len)
  {
    hide ScanRun, IsScanDigit, ReachOf, LengthOf, IsSign, Pending, CharAt, InitialBase, BaseFor, Copied;
    ReachParts(kind, inp, p, at + width0, r);
    var c, width, base;
    c, width, len, base := CollectPrefix(kind, c0, stream, width0, inp_buf, at, inp, p, r);
    len := CollectEnd(stream, c, base, width, inp_buf, len, inp, p, r.digits);
    if kind == 'i' {
      base := 0;
    }
    basep := base;
  }

  /** src/_doscan.c:272-287: the digits and the NUL. */
  method CollectEnd(stream: Stream, c0: Input, base: nat, width0: nat, inp_buf: array<char>, at: nat,
                    ghost inp: string, ghost p: nat, ghost n: nat)
    returns (len: nat)
    requires stream.buf != inp_buf && Copied(inp_buf, at, inp, p)
    requires n == ScanRun(inp[p + at..], base, width0) && at + n < inp_buf.Length
    requires Pending(stream, inp, p + at, c0, width0 > 0)
    modifies stream, stream.buf, inp_buf
    ensures len == at + n
    ensures Copied(inp_buf, len, inp, p) && inp_buf[len] == '\0' && stream.Holds(inp, p + len)
  {
    hide ScanRun, Pending;
    var c, width;
    c, width, len := CollectDigits(stream, c0, base, width0, inp_buf, at, inp, p);
    Finish(stream, c, width, inp_buf, len, inp, p);
  }

  /** src/_doscan.c:284-287. */
  method Finish(stream: Stream, c: Input, width: nat, inp_buf: array<char>, len: nat, ghost inp: string, ghost p: nat)
    requires stream.buf != inp_buf && len < inp_buf.Length
    requires Copied(inp_buf, len, inp, p) && Pending(stream, inp, p + len, c, width > 0)
    modifies stream, stream.buf, inp_buf
    ensures Copied(inp_buf, len, inp, p) && inp_buf[len] == '\0' && stream.Holds(inp, p + len)
  {
    if width > 0 && c.Ch? {
      stream.Unread(c, inp, p + len + 1);
    }
    inp_buf[len] := '\0';
  }

  // --------------------------------------- The collector against the converter

  predicate BareSign(t: string) {
    |t| == 1 && IsSign(t[0])
  }

  lemma ScanDigitsAreDigits(c: char, base: nat)
    requires base in {2, 8, 10, 16} && IsScanDigit(c, base)
    ensures IsDigitIn(c, base) && !IsSpace(c) && !IsSign(c) && !IsX(c)
  {}

  /** The collected text starts as the collector saw it. */
  lemma CollectedPrefix(kind: char, s: string, width: nat, t: string, r: Reach)
    requires width >= 1 && r == ReachOf(kind, s, width) && t == s[..LengthOf(kind, s, width)]
    requires t != "" && !BareSign(t)
    ensures SpaceRun(t) == 0
    ensures PrefixOf(t, r.sign, BaseFor(kind))
         == (r.base, if r.prefix > 0 then r.sign + r.prefix
                     else if BaseFor(kind) == 16 && CharAt(t, r.sign) == '0' then r.sign + 1 else r.sign)
  {
  }

  lemma BareSignIsNoNumber(t: string, base: nat)
    requires ValidBase(base) && BareSign(t)
    ensures SubjectOf(t, base).start == 1 == EndOf(t, base)
  {
    SpaceRunIs(t, 0);
  }

  lemma CollectedDigits(kind: char, s: string, width: nat, t: string, r: Reach, k: nat)
    requires width >= 1 && r == ReachOf(kind, s, width) && t == s[..LengthOf(kind, s, width)]
    requires r.sign + r.prefix <= k <= |t|
    ensures AllDigits(t[k..], r.base)
  {
    var run := s[r.sign + r.prefix..];
    forall i | k <= i < |t| ensures IsDigitIn(t[i], r.base) {
      assert t[i] == s[i] == run[i - r.sign - r.prefix];
      ScanDigitsAreDigits(t[i], r.base);
    }
  }

  /** The collector and the converter agree: what `o_collect` accepts, for any kind and
      width, is consumed whole by `string2long` with the base that is handed back, except
      for a bare sign, which is the case that `_doscan` turns away (src/_doscan.c:479-482). */
  lemma CollectedIsConsumed(kind: char, s: string, width: nat, t: string)
    requires width >= 1 && t == s[..LengthOf(kind, s, width)] && t != ""
    ensures EndOf(t, BaseFor(kind)) == |t|
    ensures BareSign(t) <==> EndOf(t, BaseFor(kind)) == SubjectOf(t, BaseFor(kind)).start
  {
    if BareSign(t) {
      BareSignIsNoNumber(t, BaseFor(kind));
    } else {
      var r := ReachOf(kind, s, width);
      CollectedPrefix(kind, s, width, t, r);
      var (b, from) := PrefixOf(t, r.sign, BaseFor(kind));
      CollectedDigits(kind, s, width, t, r, from);
      assert SubjectOf(t, BaseFor(kind)) == Subject(CharAt(t, 0) == '-', r.sign, b, from);
      assert t[from..][..|t| - from] == t[from..];
      DigitRunIs(t[from..], b, |t| - from);
    }
  }

  // ------------------------------------------------ The collector's grammar

  /** `t` is a whole integer text of the kind: `a` characters of sign, `z` of prefix (for the
      kinds that start out as hexadecimal), then digits only. */
  ghost predicate IntegerText(kind: char, t: string, a: nat, z: nat) {
    && a <= 1 && a + z <= |t|
    && (a == 1 <==> IsSign(CharAt(t, 0)))
    && (z >= 1 <==> InitialBase(kind) == 16 && CharAt(t, a) == '0')
    && (z == 0 || z == (if IsX(CharAt(t, a + 1)) then 2 else 1))
    && forall i :: a + z <= i < |t| ==>
         IsScanDigit(t[i], if kind != 'i' then InitialBase(kind) else if z == 0 then 10 else if z == 1 then 8 else 16)
  }

  lemma CollectedHead(kind: char, s: string, width: nat, r: Reach, t: string)
    requires width >= 1 && r == ReachOf(kind, s, width) && t == s[..r.sign + r.prefix + r.digits]
    requires r.sign + r.prefix + r.digits <= |s|
    ensures r.sign == (if IsSign(CharAt(t, 0)) then 1 else 0)
    ensures r.prefix >= 1 <==> InitialBase(kind) == 16 && CharAt(t, r.sign) == '0'
    ensures r.prefix == 0 || r.prefix == (if IsX(CharAt(t, r.sign + 1)) then 2 else 1)
  {
    hide ScanRun, IsSign, IsX;
    CollectedNul();
    NoDigitIsX(s, r, width);
  }

  lemma CollectedNul()
    ensures !IsSign('\0') && !IsX('\0')
  {}

  /** An x behind a lone zero is left out when the width ends there; digits are no x. */
  lemma NoDigitIsX(s: string, r: Reach, width: nat)
    requires r.sign + r.prefix <= |s| && r.sign + r.prefix <= width
    requires r.digits == ScanRun(s[r.sign + r.prefix..], r.base, width - r.sign - r.prefix)
    ensures r.digits > 0 ==> !IsX(CharAt(s, r.sign + r.prefix)) && !IsSign(CharAt(s, r.sign + r.prefix))
  {
    var run := s[r.sign + r.prefix..];
    assert r.digits > 0 ==> run[0] == s[r.sign + r.prefix];
  }

  lemma CollectedTail(kind: char, s: string, width: nat, r: Reach, t: string)
    requires width >= 1 && r == ReachOf(kind, s, width) && t == s[..r.sign + r.prefix + r.digits]
    requires r.sign + r.prefix + r.digits <= |s|
    ensures forall i :: r.sign + r.prefix <= i < |t| ==> IsScanDigit(t[i], r.base)
  {
    hide IsScanDigit;
    var run := s[r.sign + r.prefix..];
    assert forall i :: r.sign + r.prefix <= i < |t| ==> t[i] == run[i - r.sign - r.prefix];
  }

  /** What `o_collect` takes is a whole integer text. */
  lemma CollectedIsInteger(kind: char, s: string, width: nat, r: Reach)
    requires width >= 1 && r == ReachOf(kind, s, width)
    ensures IntegerText(kind, s[..LengthOf(kind, s, width)], r.sign, r.prefix)
  {
    hide IsScanDigit, ScanRun, IsSign, IsX;
    var t := s[..LengthOf(kind, s, width)];
    CollectedHead(kind, s, width, r, t);
    CollectedTail(kind, s, width, r, t);
  }

  /** A text that goes beyond sign and prefix has the same sign, prefix and base. */
  lemma HeadsAgree(kind: char, s: string, width: nat, k: nat, a: nat, z: nat, r: Reach)
    requires width >= 1 && k <= width && k <= |s| && r == ReachOf(kind, s, width)
    requires IntegerText(kind, s[..k], a, z) && k > r.sign + r.prefix
    ensures a == r.sign && z == r.prefix
    ensures r.base == if kind != 'i' then InitialBase(kind) else if z == 0 then 10 else if z == 1 then 8 else 16
  {
    hide IsScanDigit, ScanRun;
    assert forall i :: 0 <= i < k ==> s[i] == s[..k][i];
  }

  /** No longer stretch of digits starts at `from`. */
  lemma ScanRunIsLongest(s: string, from: nat, k: nat, base: nat, limit: nat)
    requires from <= k <= |s| && k - from <= limit
    requires forall i :: from <= i < k ==> IsScanDigit(s[i], base)
    ensures k - from <= ScanRun(s[from..], base, limit)
  {
    hide IsScanDigit;
    var n := ScanRun(s[from..], base, limit);
    assert from + n < |s| ==> s[from + n] == s[from..][n];
  }

  /** No longer piece of at most `width` characters is one: `o_collect` takes the longest. */
  lemma CollectsLongest(kind: char, s: string, width: nat, k: nat, a: nat, z: nat)
    requires width >= 1 && k <= width && k <= |s|
    requires IntegerText(kind, s[..k], a, z)
    ensures k <= LengthOf(kind, s, width)
  {
    hide IsScanDigit, ScanRun, IsSign, IsX, InitialBase;
    var r := ReachOf(kind, s, width);
    if k > r.sign + r.prefix {
      HeadsAgree(kind, s, width, k, a, z, r);
      assert forall i :: 0 <= i < k ==> s[i] == s[..k][i];
      ScanRunIsLongest(s, r.sign + r.prefix, k, r.base, width - r.sign - r.prefix);
    }
  }

  /** When a buffer of `cells` characters has room for what `o_collect` collects and for the
      NUL behind it, for every kind, input and width up to `cells`: unless the width is the
      whole buffer and the first `cells` characters of the input are one integer text. */
  lemma FitsIff(kind: char, s: string, width: nat, cells: nat)
    requires 1 <= width <= cells
    ensures LengthOf(kind, s, width) + 1 <= cells
       <==> !(width == cells && |s| >= cells && exists a: nat, z: nat :: IntegerText(kind, s[..cells], a, z))
  {
    var r := ReachOf(kind, s, width);
    CollectedIsInteger(kind, s, width, r);
    if width == cells && |s| >= cells && exists a: nat, z: nat :: IntegerText(kind, s[..cells], a, z) {
      var a: nat, z: nat :| IntegerText(kind, s[..cells], a, z);
      CollectsLongest(kind, s, width, cells, a, z);
    }
  }

  /** ... and the input that is all ones reaches every width. */
  lemma WidthIsReached(width: nat)
    requires width >= 1
    ensures LengthOf('d', Repeat('1', width), width) == width
  {
    var s := Repeat('1', width);
    assert s[0..] == s;
    assert ReachOf('d', s, width) == Reach(0, 0, 10, ScanRun(s, 10, width));
  }
}
