/** `_doscan` of src/_doscan.c:368-649, working on the stream, the number buffer and the
    character table in place, against the states of module ScanSpec.

    Every method below counts `nrchars` up and down as the C code does. Its contract says by
    how much the count has moved with the position in the input, through every pushback and
    every exhausted width, so a %n stores what the specification says. */
module Doscan {
  import opened Numerals
  import opened Streams
  import opened Strtol
  import opened Collect
  import opened ScanSpec

  lemma RunExtends(inp: string, p: nat, pos: nat)
    requires p <= pos <= |inp| && AllSpace(inp[p..pos])
    requires pos == |inp| || !IsSpace(inp[pos])
    ensures pos == p + SpaceRun(inp[p..])
  {
    var s := inp[p..];
    assert s[..pos - p] == inp[p..pos];
    SpaceRunIs(s, pos - p);
  }

  lemma SpaceExtends(inp: string, p: nat, pos: nat)
    requires p <= pos < |inp| && AllSpace(inp[p..pos]) && IsSpace(inp[pos])
    ensures AllSpace(inp[p..pos + 1])
  {
    assert inp[p..pos + 1] == inp[p..pos] + [inp[pos]];
  }

  /** Reads up to and including the first character that is no white space:
      `do { ic = getc(stream); nrchars++; } while (isspace(ic));` */
  method ReadNonSpace(stream: Stream, nrchars0: nat, ghost inp: string, ghost p: nat)
    returns (ic: Input, nrchars: nat)
    requires stream.Holds(inp, p)
    modifies stream
    ensures p + SpaceRun(inp[p..]) <= |inp| && nrchars == nrchars0 + SpaceRun(inp[p..]) + 1
    ensures Pending(stream, inp, p + SpaceRun(inp[p..]), ic, true)
  {
    ghost var pos := p;
    assert inp[p..p] == "";
    ic := stream.Getc(inp, pos);
    nrchars := nrchars0 + 1;
    while IsBlank(ic)
      invariant p <= pos <= |inp| && AllSpace(inp[p..pos]) && nrchars == nrchars0 + pos - p + 1
      invariant Pending(stream, inp, pos, ic, true)
      decreases |inp| - pos
    {
      SpaceExtends(inp, p, pos);
      pos := pos + 1;
      ic := stream.Getc(inp, pos);
      nrchars := nrchars + 1;
    }
    RunExtends(inp, p, pos);
  }

  /** src/_doscan.c:391-402. */
  method SkipSpace(stream: Stream, f0: string, nrchars0: nat, ghost inp: string, ghost p: nat)
    returns (f: string, ic: Input, nrchars: nat)
    requires stream.Holds(inp, p)
    modifies stream, stream.buf
    ensures f == f0[SpaceRun(f0)..] && nrchars == nrchars0 + SpaceRun(inp[p..])
    ensures p + SpaceRun(inp[p..]) <= |inp| && ic == At(inp, p + SpaceRun(inp[p..]))
    ensures stream.Holds(inp, p + SpaceRun(inp[p..]))
  {
    f := f0;
    while IsSpace(CharAt(f, 0))
      invariant |f| <= |f0| && f == f0[|f0| - |f|..] && AllSpace(f0[..|f0| - |f|])
      decreases |f|
    {
      f := f[1..];
    }
    SpaceRunIs(f0, |f0| - |f|);
    ic, nrchars := ReadNonSpace(stream, nrchars0, inp, p);
    if ic.Ch? {
      stream.Unread(ic, inp, p + SpaceRun(inp[p..]) + 1);
    }
    nrchars := nrchars - 1;
  }

  lemma ClassRunStops(inp: string, i: nat, cl: Class, width: nat)
    requires i <= |inp|
    ensures width == 0 || i == |inp| || !Has(cl, inp[i]) ==> ClassRun(inp[i..], cl, width) == 0
  {}

  lemma ClassRunStep(inp: string, i: nat, cl: Class, width: nat)
    requires i < |inp| && width > 0 && Has(cl, inp[i])
    ensures ClassRun(inp[i..], cl, width) == 1 + ClassRun(inp[i + 1..], cl, width - 1)
  {
    assert inp[i..][1..] == inp[i + 1..];
  }

  /** The loops of src/_doscan.c:510-522, 531-545 and 591-603: takes characters of a class,
      the first of which is at hand, and gives back the one that ends the field. */
  method ReadField(stream: Stream, ic0: Input, width0: nat, cl: Class, nrchars0: nat, ghost inp: string, ghost p: nat)
    returns (text: string, ic: Input, nrchars: nat)
    requires width0 > 0 && nrchars0 > 0
    requires Pending(stream, inp, p, ic0, true) && ic0.Ch? && Has(cl, ic0.c)
    modifies stream, stream.buf
    ensures |text| == ClassRun(inp[p..], cl, width0) && nrchars == nrchars0 - 1 + |text|
    ensures p + |text| <= |inp| && text == inp[p..p + |text|] && stream.Holds(inp, p + |text|)
    ensures ic == At(inp, if |text| == width0 && |text| > 0 then p + |text| - 1 else p + |text|)
  {
    hide ClassRun;
    var width := width0;
    ic, nrchars, text := ic0, nrchars0, "";
    while width > 0 && ic.Ch? && Has(cl, ic.c)
      invariant width + |text| == width0 && p + |text| <= |inp| && text == inp[p..p + |text|]
      invariant nrchars == nrchars0 - 1 + |text| + (if width > 0 then 1 else 0)
      invariant Pending(stream, inp, p + |text|, ic, width > 0)
      invariant width == 0 ==> ic == At(inp, p + |text| - 1)
      invariant ClassRun(inp[p..], cl, width0) == |text| + ClassRun(inp[p + |text|..], cl, width)
      decreases width
    {
      ClassRunStep(inp, p + |text|, cl, width);
      assert inp[p..p + |text| + 1] == text + [ic.c];
      text, width := text + [ic.c], width - 1;
      if width > 0 {
        ic := stream.Getc(inp, p + |text|);
        nrchars := nrchars + 1;
      }
    }
    ClassRunStops(inp, p + |text|, cl, width);
    nrchars := GiveBack(stream, ic, width, nrchars, inp, p + |text|);
  }

  /** `if (width) { if (ic != EOF) ungetc(ic, stream); nrchars--; }` */
  method GiveBack(stream: Stream, ic: Input, width: nat, nrchars0: nat, ghost inp: string, ghost pos: nat)
    returns (nrchars: nat)
    requires Pending(stream, inp, pos, ic, width > 0) && nrchars0 > 0
    modifies stream, stream.buf
    ensures nrchars == (if width > 0 then nrchars0 - 1 else nrchars0) && stream.Holds(inp, pos)
  {
    nrchars := nrchars0;
    if width > 0 {
      if ic.Ch? {
        stream.Unread(ic, inp, pos + 1);
      }
      nrchars := nrchars - 1;
    }
  }

  // ------------------------------------------------------------- The scanset

  /** `Xtable` holds the set: its cell of every character says whether it is in there. */
  ghost predicate TableIs(x: array<bool>, t: set<char>)
    reads x
  {
    && x.Length == 256
    && (forall i :: 0 <= i < 256 ==> x[i] == (i as char in t))
    && (forall c :: c in t ==> c as int < 256)
  }

  method Mark(x: array<bool>, c: char, ghost t: set<char>)
    requires TableIs(x, t)
    modifies x
    ensures TableIs(x, Marked(t, c))
  {
    if c as int < 128 {
      x[c as int] := true;
    }
  }

  /** src/_doscan.c:572-574. */
  method MarkRange(x: array<bool>, lo: nat, hi: nat, ghost t0: set<char>)
    requires TableIs(x, t0)
    modifies x
    ensures TableIs(x, WithRange(t0, lo, hi))
  {
    var c := lo;
    ghost var t := t0;
    while c <= hi && c < 128
      invariant lo <= c && TableIs(x, t) && WithRange(t0, lo, hi) == WithRange(t, c, hi)
      decreases 128 - c
    {
      Mark(x, c as char, t);
      t := Marked(t, c as char);
      c := c + 1;
    }
  }

  /** src/_doscan.c:552-579: clears the table and fills it from the format. */
  method BuildTable(x: array<bool>, f0: string) returns (reverse: bool, rest: string, ghost t: set<char>)
    requires x.Length == 256
    modifies x
    ensures (reverse, t, rest) == ScansetOf(f0) && TableIs(x, t)
  {
    rest, reverse, t := f0, CharAt(f0, 0) == '^', {};
    if reverse {
      rest := rest[1..];
    }
    for k := 0 to 256
      invariant forall i :: 0 <= i < k ==> !x[i]
    {
      x[k] := false;
    }
    if CharAt(rest, 0) == ']' {
      Mark(x, ']', t);
      t := {']'};
      rest := rest[1..];
    }
    rest, t := FillTable(x, rest, t);
  }

  /** The loop of src/_doscan.c:563-579. */
  method FillTable(x: array<bool>, f0: string, ghost t0: set<char>) returns (f: string, ghost t: set<char>)
    requires TableIs(x, t0)
    modifies x
    ensures (t, f) == TableOf(f0, t0) && TableIs(x, t)
  {
    f, t := f0, t0;
    while CharAt(f, 0) != '\0' && f[0] != ']'
      invariant TableIs(x, t) && TableOf(f, t) == TableOf(f0, t0)
      decreases |f|
    {
      var first := f[0];
      Mark(x, first, t);
      t := Marked(t, first);
      f := f[1..];
      if CharAt(f, 0) == '-' {
        f := f[1..];
        if CharAt(f, 0) != '\0' && f[0] != ']' && f[0] >= first {
          MarkRange(x, first as int + 1, f[0] as int, t);
          t := WithRange(t, first as int + 1, f[0] as int);
          f := f[1..];
        } else {
          Mark(x, '-', t);
          t := Marked(t, '-');
        }
      }
    }
  }

  lemma TableAsSet(x: array<bool>, t: set<char>, table: set<char>)
    requires TableIs(x, t) && table == set i | 0 <= i < 256 && x[i] :: i as char
    ensures table == t
  {
    forall c | c in t ensures c in table {
      assert x[c as int] && (c as int) as char == c;
    }
  }

  // ---------------------------------------------------------- The conversions

  /** What a conversion hands back to the loop: a `return`, or the new values of its variables. */
  datatype Exit = Return(ret: int) | Continue(f: string, done: nat, conv: nat, ic: Input, over: nat)

  /** `exit` and the assignments so far say the same as the outcome `o`. */
  ghost predicate Matches(exit: Exit, stores: seq<Store>, nrchars: nat, stream: Stream, inp: string, o: Outcome)
    reads stream, stream.buf
  {
    match exit
    case Return(ret) => o.Stop? && o.r.ret == ret && o.r.stores == stores && stream.Holds(inp, o.r.pos)
    case Continue(f, done, conv, ic, over) =>
      && over <= nrchars && o == Go(State(f, nrchars - over, done, conv, ic, stores, over))
      && stream.Holds(inp, nrchars - over)
  }

  function Advance(st: State, d: Directive, f: string, ic: Input): Exit {
    Continue(f, if d.noAssign then st.done else st.done + 1, st.conv + 1, ic, st.over)
  }

  /** src/_doscan.c:479-502. */
  method FinishInt(st: State, d: Directive, text: string, base: nat, ic: Input, nrchars0: nat)
    returns (exit: Exit, stores: seq<Store>, nrchars: nat)
    requires base == BaseFor(d.Kind()) && d.rest != ""
    requires nrchars0 == st.Count() + 1
    ensures var o := IntOutcome(st, d, text, ic);
            match exit
            case Return(ret) => o == Stop(Result(ret, stores, st.pos + |text|))
            case Continue(f, done, conv, ic1, over) =>
              && over == st.over && nrchars == st.Count() + |text|
              && o == Go(State(f, st.pos + |text|, done, conv, ic1, stores, over))
  {
    hide Scanned, StandardValue, Saturates;
    nrchars, stores := nrchars0, st.stores;
    if |text| == 0 || (|text| == 1 && (text[0] == '-' || text[0] == '+')) {
      return Return(st.done), stores, nrchars;
    }
    nrchars := nrchars + (|text| - 1);
    if !d.noAssign {
      var val, tmp_string;
      if d.Kind() == 'd' || d.Kind() == 'i' {
        val, tmp_string := Strtol.Strtol(text, base);
      } else {
        val, tmp_string := Strtoul(text, base);
      }
      stores := stores + [IntStore(d.size, Narrow(d.size, val))];
    }
    exit := Advance(st, d, d.rest[1..], ic);
  }

  /** As FinishInt, with the stream standing behind the text. */
  method LeaveInt(stream: Stream, st: State, d: Directive, text: string, base: nat, ic: Input, nrchars0: nat,
                  ghost inp: string)
    returns (exit: Exit, stores: seq<Store>, nrchars: nat)
    requires base == BaseFor(d.Kind()) && d.rest != ""
    requires nrchars0 == st.Count() + 1 && stream.Holds(inp, st.pos + |text|)
    ensures Matches(exit, stores, nrchars, stream, inp, IntOutcome(st, d, text, ic))
  {
    exit, stores, nrchars := FinishInt(st, d, text, base, ic, nrchars0);
  }

  /** The integer conversions, src/_doscan.c:464-502; the first character is at hand. */
  method ConvertInt(stream: Stream, inp_buf: array<char>, st: State, d: Directive, ic: Input, nrchars0: nat,
                    ghost inp: string)
    returns (exit: Exit, stores: seq<Store>, nrchars: nat)
    requires stream.buf != inp_buf && inp_buf.Length == NUMLEN
    requires st.pos < |inp| && IsIntKind(d.Kind()) && NumberFits(inp, st.pos, d)
    requires Pending(stream, inp, st.pos, ic, true) && nrchars0 == st.Count() + 1
    modifies stream, stream.buf, inp_buf
    ensures Matches(exit, stores, nrchars, stream, inp, IntConversion(inp, st, d))
  {
    hide IntValue, IntOutcome, LengthOf;
    var width := d.width;
    if !d.widthSpec || width > NUMLEN {
      width := NUMLEN;
    }
    if width == 0 {
      return Return(st.done), st.stores, nrchars0;
    }
    var len, base := OCollect(ic, stream, d.Kind(), width, inp_buf, inp, st.pos);
    var text := inp_buf[..len];
    IntUnfold(inp, st, d, len);
    exit, stores, nrchars := LeaveInt(stream, st, d, text, base, ic, nrchars0, inp);
  }

  /** The conversions %c and %s, and %[ once its set is known to hold the first character. */
  method ConvertField(stream: Stream, st: State, d: Directive, cl: Class, width: nat, rest: string,
                      ic0: Input, nrchars0: nat, ghost inp: string)
    returns (exit: Exit, stores: seq<Store>, nrchars: nat)
    requires st.pos < |inp| && width > 0 && Has(cl, inp[st.pos])
    requires Pending(stream, inp, st.pos, ic0, true) && nrchars0 == st.Count() + 1
    modifies stream, stream.buf
    ensures Matches(exit, stores, nrchars, stream, inp, FieldConversion(inp, st, d, cl, width, rest))
  {
    hide ClassRun, Has;
    var text, ic;
    text, ic, nrchars := ReadField(stream, ic0, width, cl, nrchars0, inp, st.pos);
    stores := Assign(st.stores, d, if cl == Any then CharStore(text) else TextStore(text));
    exit := Advance(st, d, rest, ic);
  }

  /** %[, src/_doscan.c:547-607. */
  method ConvertSet(stream: Stream, x: array<bool>, st: State, d: Directive, width: nat, ic: Input, nrchars0: nat,
                    ghost inp: string)
    returns (exit: Exit, stores: seq<Store>, nrchars: nat)
    requires x.Length == 256 && st.pos < |inp| && width > 0 && d.rest != ""
    requires Pending(stream, inp, st.pos, ic, true) && nrchars0 == st.Count() + 1
    modifies stream, stream.buf, x
    ensures Matches(exit, stores, nrchars, stream, inp, SetConversion(inp, st, d, width))
  {
    nrchars, stores := nrchars0, st.stores;
    var reverse, rest; ghost var t;
    reverse, rest, t := BuildTable(x, d.rest[1..]);
    if CharAt(rest, 0) == '\0' {
      return Return(st.done), stores, nrchars;
    }
    var table := set i | 0 <= i < 256 && x[i] :: i as char;
    TableAsSet(x, t, table);
    if !(x[ic.c as int] != reverse) {
      stream.Unread(ic, inp, st.pos + 1);
      return Return(st.done), stores, nrchars;
    }
    exit, stores, nrchars := ConvertField(stream, st, d, InTable(table, reverse), width, rest[1..], ic, nrchars, inp);
  }

  // ------------------------------------------------------------- The scanner

  /** The digits of a width, src/_doscan.c:426-430, in an unsigned that wraps. */
  method ReadWidth(f0: string) returns (f: string, width: nat)
    ensures (f, width) == ScanWidthOf(f0, 0)
  {
    f, width := f0, 0;
    while f != "" && IsDecimal(f[0])
      invariant ScanWidthOf(f, width) == ScanWidthOf(f0, 0)
      decreases |f|
    {
      width := (width * 10 + (f[0] as int - '0' as int)) % TWO_TO_THE_32;
      f := f[1..];
    }
  }

  /** src/_doscan.c:421-437. */
  method ReadDirective(f0: string) returns (d: Directive)
    ensures d == DirectiveOf(f0)
  {
    var f, noAssign, size := f0, false, Int;
    if CharAt(f, 0) == '*' {
      f, noAssign := f[1..], true;
    }
    var widthSpec, width := IsDecimal(CharAt(f, 0)), 0;
    f, width := ReadWidth(f);
    var q := CharAt(f, 0);
    if q == 'h' || q == 'l' || q == 'L' {
      size := if q == 'h' then Short else if q == 'l' then Long else Int;
      f := f[1..];
    }
    d := Directive(noAssign, widthSpec, width, size, f);
  }

  /** A literal character, or the second half of "%%", src/_doscan.c:405-420. */
  method MatchLiteral(stream: Stream, st: State, c: char, rest: string, ghost inp: string)
    returns (exit: Exit, nrchars: nat)
    requires stream.Holds(inp, st.pos)
    modifies stream
    ensures Matches(exit, st.stores, nrchars, stream, inp, Literal(inp, st, c, rest))
  {
    var ic := stream.Getc(inp, st.pos);
    nrchars := st.Count() + 1;
    if InputCode(ic) == FormatCode(c) {
      exit := Continue(rest, st.done, st.conv, ic, if ic == EOF then st.over + 1 else st.over);
    } else {
      exit := Return(if st.conv > 0 || ic != EOF then st.done else -1);
    }
  }

  /** The switch of src/_doscan.c:449-643, with the first character of the conversion at hand. */
  method Convert(stream: Stream, inp_buf: array<char>, x: array<bool>, st: State, d: Directive, ic: Input,
                 nrchars0: nat, ghost inp: string)
    returns (exit: Exit, stores: seq<Store>, nrchars: nat)
    requires stream.buf != inp_buf && inp_buf.Length == NUMLEN && x.Length == 256
    requires st.pos < |inp| && NumberFits(inp, st.pos, d) && Pending(stream, inp, st.pos, ic, true)
    requires nrchars0 == st.Count() + 1
    requires d.Kind() == 's' ==> !IsSpace(ic.c)
    modifies stream, stream.buf, inp_buf, x
    ensures Matches(exit, stores, nrchars, stream, inp, Conversion(inp, st, d))
  {
    var kind := d.Kind();
    if IsIntKind(kind) {
      exit, stores, nrchars := ConvertInt(stream, inp_buf, st, d, ic, nrchars0, inp);
    } else if kind == 'c' || kind == 's' || kind == '[' {
      var width := d.width;
      if !d.widthSpec {
        width := if kind == 'c' then 1 else 0xffff;
      }
      if width == 0 {
        return Return(st.done), st.stores, nrchars0;
      }
      if kind == 'c' {
        exit, stores, nrchars := ConvertField(stream, st, d, Any, width, d.rest[1..], ic, nrchars0, inp);
      } else if kind == '[' {
        exit, stores, nrchars := ConvertSet(stream, x, st, d, width, ic, nrchars0, inp);
      } else {
        exit, stores, nrchars := ConvertField(stream, st, d, NonSpace, width, d.rest[1..], ic, nrchars0, inp);
      }
    } else {
      return Return(st.done), st.stores, nrchars0;
    }
  }

  /** src/_doscan.c:438-448. The count is one too high at the end of the input, where the
      loop is left. */
  method ReadFirst(stream: Stream, kind: char, nrchars0: nat, ghost inp: string, ghost p: nat)
    returns (ic: Input, nrchars: nat)
    requires stream.Holds(inp, p) && p <= |inp|
    modifies stream
    ensures nrchars == nrchars0 + FirstOf(inp, p, kind) - p + 1
    ensures Pending(stream, inp, FirstOf(inp, p, kind), ic, true)
    ensures ic.Ch? && kind == 's' ==> !IsSpace(ic.c)
  {
    if kind != 'c' && kind != '[' {
      ic, nrchars := ReadNonSpace(stream, nrchars0, inp, p);
      assert CharAt(inp[p..], SpaceRun(inp[p..])) == if ic.Ch? then ic.c else '\0';
    } else {
      ic := stream.Getc(inp, p);
      nrchars := nrchars0 + 1;
    }
  }

  /** A directive, src/_doscan.c:437-646. */
  method Direct(stream: Stream, inp_buf: array<char>, x: array<bool>, st: State, d: Directive, ghost inp: string)
    returns (exit: Exit, stores: seq<Store>, nrchars: nat)
    requires stream.buf != inp_buf && inp_buf.Length == NUMLEN && x.Length == 256
    requires stream.Holds(inp, st.pos) && st.pos <= |inp| && NumberFits(inp, FirstOf(inp, st.pos, d.Kind()), d)
    modifies stream, stream.buf, inp_buf, x
    ensures Matches(exit, stores, nrchars, stream, inp, Directed(inp, st, d))
  {
    hide Conversion, NumberFits, FirstOf;
    var kind := d.Kind();
    nrchars, stores := st.Count(), st.stores;
    var ic := st.ic;
    if kind == 'n' {
      if !d.noAssign {
        stores := stores + [CountStore(d.size, if d.size == Short then nrchars % 0x10000 else nrchars)];
      }
      return Continue(d.rest[1..], st.done, st.conv + 1, ic, st.over), stores, nrchars;
    }
    ic, nrchars := ReadFirst(stream, kind, nrchars, inp, st.pos);
    if ic == EOF {
      return Return(if st.conv > 0 then st.done else -1), stores, nrchars;
    }
    exit, stores, nrchars := Convert(stream, inp_buf, x, st.(pos := nrchars - 1 - st.over), d, ic, nrchars, inp);
  }

  /** src/_doscan.c:403-647. */
  method DoItem(stream: Stream, inp_buf: array<char>, x: array<bool>, st: State, ghost inp: string)
    returns (exit: Exit, stores: seq<Store>, nrchars: nat)
    requires stream.buf != inp_buf && inp_buf.Length == NUMLEN && x.Length == 256
    requires stream.Holds(inp, st.pos) && st.pos <= |inp| && ItemFits(inp, st)
    modifies stream, stream.buf, inp_buf, x
    ensures Matches(exit, stores, nrchars, stream, inp, Item(inp, st))
  {
    stores, nrchars := st.stores, st.Count();
    if CharAt(st.f, 0) == '\0' {
      exit := Return(if st.conv > 0 || st.ic != EOF then st.done else -1);
    } else if st.f[0] != '%' {
      exit, nrchars := MatchLiteral(stream, st, st.f[0], st.f[1..], inp);
    } else if CharAt(st.f, 1) == '%' {
      exit, nrchars := MatchLiteral(stream, st, '%', st.f[2..], inp);
    } else {
      var d := ReadDirective(st.f[1..]);
      exit, stores, nrchars := Direct(stream, inp_buf, x, st, d, inp);
    }
  }

  /** src/_doscan.c:392-402: white space in the format passes over any in the input. */
  method PassBlanks(stream: Stream, st0: State, ghost inp: string) returns (st: State)
    requires stream.Holds(inp, st0.pos) && st0.pos <= |inp|
    modifies stream, stream.buf
    ensures st == Skipped(inp, st0)
    ensures stream.Holds(inp, st.pos)
  {
    st := st0;
    if IsSpace(CharAt(st.f, 0)) {
      var f, ic, nrchars := SkipSpace(stream, st.f, st.Count(), inp, st.pos);
      st := st.(f := f, pos := nrchars - st.over, ic := ic);
    }
  }

  /** One turn of the outer loop, src/_doscan.c:390-647. */
  method DoTurn(stream: Stream, inp_buf: array<char>, x: array<bool>, st0: State, ghost inp: string)
    returns (exit: Exit, stores: seq<Store>, nrchars: nat)
    requires stream.buf != inp_buf && inp_buf.Length == NUMLEN && x.Length == 256
    requires stream.Holds(inp, st0.pos) && st0.pos <= |inp| && TurnFits(inp, st0)
    modifies stream, stream.buf, inp_buf, x
    ensures Matches(exit, stores, nrchars, stream, inp, Turn(inp, st0))
  {
    var st := PassBlanks(stream, st0, inp);
    exit, stores, nrchars := DoItem(stream, inp_buf, x, st, inp);
  }

  /** `_doscan`: returns and stores what the specification says, and leaves the stream
      at the position that the specification says; the input itself is unchanged. The buffer
      has the 512 cells that the code gives it, and no number may fill it. */
  method Scanf(stream: Stream, inp_buf: array<char>, x: array<bool>, format: string)
    returns (ret: int, stores: seq<Store>)
    requires stream.buf != inp_buf && inp_buf.Length == NUMLEN && x.Length == 256
    requires stream.Holds(stream.buf[..], 0) && ScanFits(stream.buf[..], format)
    modifies stream, stream.buf, inp_buf, x
    ensures var r := Scan(old(stream.buf[..]), format);
            ret == r.ret && stores == r.stores && stream.Holds(old(stream.buf[..]), r.pos)
  {
    hide Turn, TurnFits;
    ghost var inp := stream.buf[..];
    if CharAt(format, 0) == '\0' {
      return 0, [];
    }
    var st := Initial(format);
    while true
      invariant stream.Holds(inp, st.pos) && st.pos <= |inp|
      invariant Run(inp, st) == Scan(inp, format) && RunFits(inp, st)
      decreases |st.f|
    {
      var exit, more, nrchars := DoTurn(stream, inp_buf, x, st, inp);
      match exit {
        case Return(r) =>
          return r, more;
        case Continue(f, done, conv, ic, over) =>
          st := State(f, nrchars - over, done, conv, ic, more, over);
      }
    }
  }
}
