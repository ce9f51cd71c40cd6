/** What one conversion of `_doscan` takes from the input and stores, in terms of the
    characters of format and input (src/_doscan.c:390-647). */
module ScanFields {
  import opened Numerals
  import opened Printf
  import opened Strtol
  import opened Streams
  import opened Collect
  import opened ScanSpec
  import opened Scansets
  import opened FormatFields

  // ---------------------------------------------------- Reading a directive

  /** A conversion character, no other part of a directive. */
  predicate IsScanConv(c: char) {
    c != '*' && c != '%' && c != '\0' && !IsDecimal(c) && c != 'h' && c != 'l' && c != 'L'
  }

  /** A directive behind its '%': suppression, width, size, and the conversion character. */
  function DirectiveText(star: bool, w: Option<nat>, q: string, kind: char, rest: string): string {
    (if star then "*" else "") + (WidthText(w) + (q + ([kind] + rest)))
  }

  function Wrapped(v: nat): nat {
    v % TWO_TO_THE_32
  }

  lemma WrappedIs(n: nat, q: nat, r: nat)
    requires n == q * TWO_TO_THE_32 + r && r < TWO_TO_THE_32
    ensures Wrapped(n) == r && n / TWO_TO_THE_32 == q
  {}

  /** Wrapping in between makes no difference. */
  lemma WidthStep(v: nat, d: nat)
    ensures Wrapped(Wrapped(v) * 10 + d) == Wrapped(v * 10 + d)
  {
    var q, r := v / TWO_TO_THE_32, Wrapped(v);
    assert v == q * TWO_TO_THE_32 + r;
    hide Wrapped;
    var n := r * 10 + d;
    var k := n / TWO_TO_THE_32;
    assert n == k * TWO_TO_THE_32 + n % TWO_TO_THE_32;
    WrappedIs(n, k, n % TWO_TO_THE_32);
    WrappedIs(v * 10 + d, 10 * q + k, n % TWO_TO_THE_32);
  }

  lemma WidthUnfolds(c: char, rest: string, width: nat)
    requires IsDecimal(c)
    ensures ScanWidthOf([c] + rest, width) == ScanWidthOf(rest, Wrapped(width * 10 + DigitValue(c)))
  {
    assert ([c] + rest)[1..] == rest;
  }

  lemma {:induction false} WidthReads(ds: string, rest: string)
    requires AllDigits(ds, 10)
    ensures ScanWidthOf(ds + rest, 0) == ScanWidthOf(rest, Wrapped(Value(ds, 10)))
    decreases |ds|
  {
    if ds == "" {
      assert ds + rest == rest;
    } else {
      var n := |ds| - 1;
      var tail := [ds[n]] + rest;
      assert ds + rest == ds[..n] + tail && IsDigitIn(ds[n], 10);
      WidthReads(ds[..n], tail);
      WidthUnfolds(ds[n], rest, Wrapped(Value(ds[..n], 10)));
      WidthStep(Value(ds[..n], 10), DigitValue(ds[n]));
      hide Wrapped, ScanWidthOf;
    }
  }

  lemma ScanWidthIsRead(w: Option<nat>, rest: string)
    requires !IsDecimal(CharAt(rest, 0)) && CharAt(rest, 0) != '*' && CharAt(rest, 0) != '%'
    ensures var f := WidthText(w) + rest;
            && ScanWidthOf(f, 0) == (rest, if w.Some? then w.value % TWO_TO_THE_32 else 0)
            && (IsDecimal(CharAt(f, 0)) <==> w.Some?) && CharAt(f, 0) != '*' && CharAt(f, 0) != '%'
  {
    if w.Some? {
      NumeralDigits(w.value, 10, false);
      NumeralValue(w.value, 10, false);
      hide Numeral, Value;
      var ds := Numeral(w.value, 10, false);
      WidthReads(ds, rest);
      assert IsDigitIn(ds[0], 10) && (ds + rest)[0] == ds[0];
    } else {
      assert "" + rest == rest;
    }
  }

  lemma SizeIsRead(q: string, kind: char, rest: string)
    requires IsQualifierText(q) && IsScanConv(kind)
    ensures var f := q + ([kind] + rest);
            && !IsDecimal(CharAt(f, 0)) && CharAt(f, 0) != '*' && CharAt(f, 0) != '%'
            && (CharAt(f, 0) == if q == "" then kind else q[0])
            && (if q == "" then f else f[1..]) == [kind] + rest
  {
    var f := q + ([kind] + rest);
    if q == "" {
      assert f == [kind] + rest;
    } else {
      assert f[1..] == [kind] + rest;
    }
  }

  /** Every directive is read as it is meant; a width wraps at 32 bits. */
  lemma DirectiveIsRead(star: bool, w: Option<nat>, q: string, kind: char, rest: string)
    requires IsQualifierText(q) && IsScanConv(kind)
    ensures DirectiveOf(DirectiveText(star, w, q, kind, rest))
         == Directive(star, w.Some?, if w.Some? then w.value % TWO_TO_THE_32 else 0,
                      if q == "h" then Short else if q == "l" then Long else Int, [kind] + rest)
    ensures CharAt(DirectiveText(star, w, q, kind, rest), 0) != '%'
  {
    hide ScanWidthOf, WidthText, IsDecimal;
    var f2 := q + ([kind] + rest);
    SizeIsRead(q, kind, rest);
    ScanWidthIsRead(w, f2);
    var f1 := WidthText(w) + f2;
    var f := DirectiveText(star, w, q, kind, rest);
    if star {
      assert f[1..] == f1;
    } else {
      assert f == f1;
    }
  }

  ghost predicate IsDirective(st: State, star: bool, w: Option<nat>, q: string, kind: char, rest: string) {
    && st.f == "%" + DirectiveText(star, w, q, kind, rest)
    && (w.Some? ==> 0 < w.value < TWO_TO_THE_32) && IsQualifierText(q) && IsScanConv(kind)
  }

  function SizeOf(q: string): Size {
    if q == "h" then Short else if q == "l" then Long else Int
  }

  function DirectiveFor(star: bool, w: Option<nat>, q: string, kind: char, rest: string): Directive {
    Directive(star, w.Some?, if w.Some? then w.value else 0, SizeOf(q), [kind] + rest)
  }

  /** A turn at a directive. */
  lemma TurnIsDirected(inp: string, st: State, star: bool, w: Option<nat>, q: string, kind: char, rest: string)
    requires st.pos <= |inp| && IsDirective(st, star, w, q, kind, rest)
    ensures Turn(inp, st) == Directed(inp, st, DirectiveFor(star, w, q, kind, rest))
    ensures DirectiveFor(star, w, q, kind, rest).rest[1..] == rest
    ensures DirectiveFor(star, w, q, kind, rest).Kind() == kind
  {
    DirectiveIsRead(star, w, q, kind, rest);
    WidthFits(w);
    TurnAtPercent(inp, st, DirectiveText(star, w, q, kind, rest));
    assert ([kind] + rest)[1..] == rest;
    hide DirectiveText, DirectiveOf, Directed, Turn;
  }

  lemma WidthFits(w: Option<nat>)
    requires w.Some? ==> 0 < w.value < TWO_TO_THE_32
    ensures w.Some? ==> w.value % TWO_TO_THE_32 == w.value
  {}

  lemma TurnAtPercent(inp: string, st: State, t: string)
    requires st.pos <= |inp| && st.f == "%" + t && CharAt(t, 0) != '%'
    ensures Turn(inp, st) == Directed(inp, st, DirectiveOf(t))
  {
    hide DirectiveOf, Directed;
    assert st.f[0] == '%' && st.f[1..] == t && CharAt(st.f, 1) == CharAt(t, 0);
  }

  // ------------------------------------------------------ %[, %s and %c

  /** The characters that a written set takes. */
  predicate InSet(reverse: bool, bracket: bool, ps: seq<Part>, dash: bool, c: char) {
    ((bracket && c == ']') || InParts(ps, c) || (dash && c == '-')) != reverse
  }

  /** A set as it is written behind the '[', with `tail` behind its closing ']'. */
  function SetText(reverse: bool, bracket: bool, ps: seq<Part>, dash: bool, tail: string): string {
    (if reverse then "^" else "") + ((if bracket then "]" else "") + PartsText(ps, SetEnd(dash, tail)))
  }

  predicate ValidSet(reverse: bool, bracket: bool, ps: seq<Part>, dash: bool) {
    && ValidParts(ps) && (bracket || ps != [] || dash)
    && (!reverse && !bracket && ps != [] ==> CharAt(PartText(ps[0]), 0) != '^')
  }

  lemma ClassRunIsLongest(s: string, cl: Class, limit: nat)
    ensures var n := ClassRun(s, cl, limit);
            && (forall i :: 0 <= i < n ==> Has(cl, s[i]))
            && (n < limit && n < |s| ==> !Has(cl, s[n]))
  {
    if limit > 0 && s != "" && Has(cl, s[0]) {
      ClassRunIsLongest(s[1..], cl, limit - 1);
      assert forall i :: 1 <= i < |s| ==> s[i] == s[1..][i - 1];
    }
  }

  /** `n` is the length of the longest piece from `pos` on, of at most `limit` characters, that
      the set takes. */
  ghost predicate SetPiece(inp: string, pos: nat, limit: nat, reverse: bool, bracket: bool, ps: seq<Part>, dash: bool,
                           n: nat) {
    && n <= limit && pos + n <= |inp|
    && (forall i :: pos <= i < pos + n ==> InSet(reverse, bracket, ps, dash, inp[i]))
    && (n < limit && pos + n < |inp| ==> !InSet(reverse, bracket, ps, dash, inp[pos + n]))
  }

  /** A turn that has stored a text of `n` characters at `pos` and leaves the format `rest`. */
  ghost predicate TextTaken(o: Outcome, inp: string, st: State, star: bool, pos: nat, n: nat, text: Store,
                            rest: string) {
    && o.Go? && o.st.f == rest && o.st.pos == pos + n && o.st.over == st.over && o.st.conv == st.conv + 1
    && o.st.done == st.done + (if star then 0 else 1)
    && o.st.stores == st.stores + (if star then [] else [text])
  }

  lemma FieldIsTaken(inp: string, st: State, d: Directive, cl: Class, width: nat, rest: string, n: nat)
    requires st.pos < |inp| && n == ClassRun(inp[st.pos..], cl, width)
    ensures TextTaken(FieldConversion(inp, st, d, cl, width, rest), inp, st, d.noAssign, st.pos, n,
                      if cl == Any then CharStore(inp[st.pos..st.pos + n]) else TextStore(inp[st.pos..st.pos + n]),
                      rest)
  {}

  /** How many characters %s and %[ take at most, and %c. */
  function Limit(w: Option<nat>, other: nat): nat {
    if w.Some? then w.value else other
  }

  /** %[ takes the longest piece of the input that consists of characters of the written set,
      up to the width, and stores it; if the first character is none, it takes nothing. */
  lemma SetTakes(inp: string, st: State, star: bool, w: Option<nat>, q: string, reverse: bool, bracket: bool,
                 ps: seq<Part>, dash: bool, tail: string) returns (n: nat)
    requires st.pos <= |inp| && ValidSet(reverse, bracket, ps, dash)
    requires IsDirective(st, star, w, q, '[', SetText(reverse, bracket, ps, dash, tail))
    ensures SetPiece(inp, st.pos, Limit(w, 65535), reverse, bracket, ps, dash, n)
    ensures if n > 0 then
              TextTaken(Turn(inp, st), inp, st, star, st.pos, n, TextStore(inp[st.pos..st.pos + n]), tail)
            else if st.pos < |inp| then Turn(inp, st) == Stop(Result(st.done, st.stores, st.pos))
            else Turn(inp, st) == Stop(Result(if st.conv > 0 then st.done else -1, st.stores, st.pos))
  {
    hide SetPiece, TextTaken, InSet, SetText, ValidSet, Turn, Directed, SetConversion, DirectiveText, WidthText,
         SizeOf, IsQualifierText;
    var f := SetText(reverse, bracket, ps, dash, tail);
    var d := DirectiveFor(star, w, q, '[', f);
    TurnIsDirected(inp, st, star, w, q, '[', f);
    if st.pos < |inp| {
      n := SetIsTaken(inp, st, d, Limit(w, 65535), reverse, bracket, ps, dash, tail);
      DirectedIsSet(inp, st, d, Limit(w, 65535));
    } else {
      n := NothingThere(inp, st.pos, Limit(w, 65535), reverse, bracket, ps, dash);
      EndOfInput(inp, st, d);
    }
  }

  ghost predicate IsTableOf(t: set<char>, bracket: bool, ps: seq<Part>, dash: bool) {
    forall c :: c in t <==> (bracket && c == ']') || InParts(ps, c) || (dash && c == '-')
  }

  lemma SetDenotes(reverse: bool, bracket: bool, ps: seq<Part>, dash: bool, tail: string, f: string)
    requires ValidSet(reverse, bracket, ps, dash) && f == SetText(reverse, bracket, ps, dash, tail)
    ensures var (r, t, rest) := ScansetOf(f);
            r == reverse && rest == [']'] + tail && IsTableOf(t, bracket, ps, dash)
  {
    hide ScansetOf;
    ScansetDenotes(reverse, bracket, ps, dash, tail, f);
  }

  lemma SetIsTaken(inp: string, st: State, d: Directive, limit: nat, reverse: bool, bracket: bool,
                   ps: seq<Part>, dash: bool, tail: string) returns (n: nat)
    requires st.pos < |inp| && limit > 0 && ValidSet(reverse, bracket, ps, dash)
    requires d.rest != "" && d.rest[1..] == SetText(reverse, bracket, ps, dash, tail)
    ensures SetPiece(inp, st.pos, limit, reverse, bracket, ps, dash, n)
    ensures if n > 0 then
              TextTaken(SetConversion(inp, st, d, limit), inp, st, d.noAssign, st.pos, n,
                        TextStore(inp[st.pos..st.pos + n]), tail)
            else SetConversion(inp, st, d, limit) == Stop(Result(st.done, st.stores, st.pos))
  {
    hide ScansetOf, SetPiece, TextTaken, InSet, SetText, SetConversion, Has, ClassRun, ValidSet, IsTableOf;
    SetDenotes(reverse, bracket, ps, dash, tail, d.rest[1..]);
    var (r, t, rest) := ScansetOf(d.rest[1..]);
    n := SetRun(inp, st, d, reverse, bracket, ps, dash, t, limit);
    SetIsConverted(inp, st, d, reverse, t, rest, tail, limit);
  }

  lemma NothingThere(inp: string, pos: nat, limit: nat, reverse: bool, bracket: bool, ps: seq<Part>, dash: bool)
    returns (n: nat)
    requires pos == |inp|
    ensures n == 0 && SetPiece(inp, pos, limit, reverse, bracket, ps, dash, n)
  {
    n := 0;
  }

  lemma EndOfInput(inp: string, st: State, d: Directive)
    requires st.pos == |inp| && d.Kind() != 'n'
    ensures Directed(inp, st, d) == Stop(Result(if st.conv > 0 then st.done else -1, st.stores, st.pos))
  {
    assert inp[st.pos..] == "";
  }

  lemma DirectedIsSet(inp: string, st: State, d: Directive, limit: nat)
    requires st.pos < |inp| && d.Kind() == '[' && limit > 0 && limit == if d.widthSpec then d.width else 0xffff
    ensures Directed(inp, st, d) == SetConversion(inp, st, d, limit)
  {
    hide SetConversion;
    assert st.(pos := st.pos) == st;
  }

  lemma SetRun(inp: string, st: State, d: Directive, reverse: bool, bracket: bool, ps: seq<Part>, dash: bool,
               t: set<char>, limit: nat) returns (n: nat)
    requires st.pos < |inp| && limit > 0
    requires IsTableOf(t, bracket, ps, dash)
    ensures n == ClassRun(inp[st.pos..], InTable(t, reverse), limit)
    ensures SetPiece(inp, st.pos, limit, reverse, bracket, ps, dash, n)
    ensures n > 0 <==> Has(InTable(t, reverse), inp[st.pos])
  {
    var cl, s := InTable(t, reverse), inp[st.pos..];
    n := ClassRun(s, cl, limit);
    ClassRunIsLongest(s, cl, limit);
    assert s[0] == inp[st.pos];
    forall i | st.pos <= i < st.pos + n ensures InSet(reverse, bracket, ps, dash, inp[i]) {
      assert Has(cl, s[i - st.pos]);
    }
    if st.pos + n < |inp| {
      assert s[n] == inp[st.pos + n];
    }
  }

  lemma SetIsConverted(inp: string, st: State, d: Directive, reverse: bool, t: set<char>, rest: string, tail: string,
                       limit: nat)
    requires st.pos < |inp| && limit > 0 && d.rest != "" && ScansetOf(d.rest[1..]) == (reverse, t, rest)
    requires rest == [']'] + tail
    ensures var n := ClassRun(inp[st.pos..], InTable(t, reverse), limit);
            if Has(InTable(t, reverse), inp[st.pos])
            then TextTaken(SetConversion(inp, st, d, limit), inp, st, d.noAssign, st.pos, n,
                           TextStore(inp[st.pos..st.pos + n]), tail)
            else SetConversion(inp, st, d, limit) == Stop(Result(st.done, st.stores, st.pos))
  {
    var n := ClassRun(inp[st.pos..], InTable(t, reverse), limit);
    assert rest[1..] == tail;
    FieldIsTaken(inp, st, d, InTable(t, reverse), limit, tail, n);
    hide FieldConversion, TextTaken, ClassRun, Has, ScansetOf;
  }

  /** `p` is where the white space from `pos` on ends. */
  ghost predicate BlanksEnd(inp: string, pos: nat, p: nat) {
    && pos <= p <= |inp| && (forall i :: pos <= i < p ==> IsSpace(inp[i]))
    && (p < |inp| ==> !IsSpace(inp[p]))
  }

  lemma SpaceRunEnds(inp: string, pos: nat)
    requires pos <= |inp|
    ensures BlanksEnd(inp, pos, pos + SpaceRun(inp[pos..]))
  {
    var s := inp[pos..];
    var n := SpaceRun(s);
    assert forall i :: 0 <= i < n ==> s[i] == s[..n][i];
    assert forall i :: pos <= i < pos + n ==> inp[i] == s[i - pos];
    assert pos + n < |inp| ==> inp[pos + n] == s[n];
  }

  /** `n` is the length of the longest word from `pos` on, of at most `limit` characters. */
  ghost predicate WordPiece(inp: string, pos: nat, limit: nat, n: nat) {
    && n <= limit && pos + n <= |inp| && (forall i :: pos <= i < pos + n ==> !IsSpace(inp[i]))
    && (n < limit && pos + n < |inp| ==> IsSpace(inp[pos + n]))
  }

  lemma WordRun(inp: string, pos: nat, limit: nat, n: nat)
    requires pos < |inp| && limit > 0 && !IsSpace(inp[pos]) && n == ClassRun(inp[pos..], NonSpace, limit)
    ensures WordPiece(inp, pos, limit, n) && n > 0
  {
    var s := inp[pos..];
    ClassRunIsLongest(s, NonSpace, limit);
    assert s[0] == inp[pos];
    forall i | pos <= i < pos + n ensures !IsSpace(inp[i]) {
      assert Has(NonSpace, s[i - pos]);
    }
    if pos + n < |inp| {
      assert s[n] == inp[pos + n];
    }
  }

  lemma DirectedIsText(inp: string, st: State, d: Directive, p: nat)
    requires st.pos <= |inp| && d.Kind() == 's' && (d.widthSpec ==> d.width > 0)
    requires p == st.pos + SpaceRun(inp[st.pos..])
    ensures p <= |inp|
    ensures Directed(inp, st, d)
         == if p == |inp| then Stop(Result(if st.conv > 0 then st.done else -1, st.stores, p))
            else FieldConversion(inp, st.(pos := p), d, NonSpace, if d.widthSpec then d.width else 0xffff, d.rest[1..])
  {
    hide FieldConversion;
  }

  /** %s passes over white space, and then takes the longest word, up to the width. */
  lemma StringTakes(inp: string, st: State, star: bool, w: Option<nat>, q: string, rest: string)
    returns (p: nat, n: nat)
    requires st.pos <= |inp| && IsDirective(st, star, w, q, 's', rest)
    ensures BlanksEnd(inp, st.pos, p) && WordPiece(inp, p, Limit(w, 65535), n)
    ensures if p < |inp| then n > 0 && TextTaken(Turn(inp, st), inp, st, star, p, n, TextStore(inp[p..p + n]), rest)
            else Turn(inp, st) == Stop(Result(if st.conv > 0 then st.done else -1, st.stores, p))
  {
    hide TextTaken, Turn, Directed, DirectiveText, WidthText, SizeOf, IsQualifierText, FieldConversion, WordPiece,
         ClassRun, BlanksEnd;
    var d := DirectiveFor(star, w, q, 's', rest);
    TurnIsDirected(inp, st, star, w, q, 's', rest);
    p, n := st.pos + SpaceRun(inp[st.pos..]), 0;
    SpaceRunEnds(inp, st.pos);
    DirectedIsText(inp, st, d, p);
    if p < |inp| {
      n := ClassRun(inp[p..], NonSpace, Limit(w, 65535));
      StartsWord(inp, st.pos, p);
      WordRun(inp, p, Limit(w, 65535), n);
      FieldIsTakenAt(inp, st, d, NonSpace, Limit(w, 65535), rest, p, n);
    } else {
      NoWord(inp, p, Limit(w, 65535));
    }
  }

  lemma StartsWord(inp: string, pos: nat, p: nat)
    requires BlanksEnd(inp, pos, p) && p < |inp|
    ensures !IsSpace(inp[p])
  {}

  lemma NoWord(inp: string, p: nat, limit: nat)
    requires p == |inp|
    ensures WordPiece(inp, p, limit, 0)
  {}

  lemma FieldIsTakenAt(inp: string, st: State, d: Directive, cl: Class, width: nat, rest: string, p: nat, n: nat)
    requires p < |inp| && n == ClassRun(inp[p..], cl, width)
    ensures p + n <= |inp|
    ensures TextTaken(FieldConversion(inp, st.(pos := p), d, cl, width, rest), inp, st, d.noAssign, p, n,
                      if cl == Any then CharStore(inp[p..p + n]) else TextStore(inp[p..p + n]), rest)
  {
    FieldIsTaken(inp, st.(pos := p), d, cl, width, rest, n);
  }

  lemma {:induction false} AnyRun(s: string, limit: nat)
    ensures ClassRun(s, Any, limit) == if |s| < limit then |s| else limit
    decreases |s|
  {
    if limit > 0 && s != "" {
      AnyRun(s[1..], limit - 1);
    }
  }

  lemma DirectedIsChars(inp: string, st: State, d: Directive)
    requires st.pos < |inp| && d.Kind() == 'c' && (d.widthSpec ==> d.width > 0)
    ensures Directed(inp, st, d)
         == FieldConversion(inp, st.(pos := st.pos), d, Any, if d.widthSpec then d.width else 1, d.rest[1..])
  {
    hide FieldConversion;
  }

  /** %c takes as many characters as its width says, one without a width, white space as well,
      and stores them without a NUL. */
  lemma CharsTaken(inp: string, st: State, star: bool, w: Option<nat>, q: string, rest: string) returns (n: nat)
    requires st.pos <= |inp| && IsDirective(st, star, w, q, 'c', rest)
    ensures n == (if |inp| - st.pos < Limit(w, 1) then |inp| - st.pos else Limit(w, 1))
    ensures if st.pos < |inp|
            then TextTaken(Turn(inp, st), inp, st, star, st.pos, n, CharStore(inp[st.pos..st.pos + n]), rest)
            else Turn(inp, st) == Stop(Result(if st.conv > 0 then st.done else -1, st.stores, st.pos))
  {
    hide TextTaken, Turn, Directed, DirectiveText, WidthText, SizeOf, IsQualifierText, FieldConversion, ClassRun;
    var d := DirectiveFor(star, w, q, 'c', rest);
    TurnIsDirected(inp, st, star, w, q, 'c', rest);
    n := if |inp| - st.pos < Limit(w, 1) then |inp| - st.pos else Limit(w, 1);
    if st.pos < |inp| {
      AnyRun(inp[st.pos..], Limit(w, 1));
      DirectedIsChars(inp, st, d);
      FieldIsTakenAt(inp, st, d, Any, Limit(w, 1), rest, st.pos, n);
    } else {
      EndOfInput(inp, st, d);
    }
  }

  // ----------------------------------------------------------- Integers and %n

  /** %d, %i, %u, %o, %b, %x, %X and %p. */
  predicate IsIntConv(kind: char) {
    kind == 'd' || kind == 'i' || kind == 'u' || kind == 'o' || kind == 'b' || kind == 'x' || kind == 'X' || kind == 'p'
  }

  /** The base in which a conversion reads its digits; 0 for %i, whose prefix decides. */
  function ConvBase(kind: char): nat {
    if kind == 'i' then 0 else if kind == 'o' then 8 else if kind == 'b' then 2
    else if kind == 'd' || kind == 'u' then 10 else 16
  }

  /** Sign, prefix and digits of the kind. */
  ghost predicate IsIntegerText(t: string, kind: char) {
    exists a: nat, z: nat :: IntegerText(kind, t, a, z)
  }

  ghost predicate IntegerAt(inp: string, p: nat, k: nat, kind: char) {
    p + k <= |inp| && IsIntegerText(inp[p..p + k], kind)
  }

  /** `n` is the length of the longest integer text of the kind from `p` on. */
  ghost predicate IntegerPiece(inp: string, p: nat, kind: char, limit: nat, n: nat) {
    n <= limit && IntegerAt(inp, p, n, kind) && forall k: nat :: n < k <= limit ==> !IntegerAt(inp, p, k, kind)
  }

  lemma SliceOf(inp: string, p: nat, k: nat)
    requires p + k <= |inp|
    ensures inp[p..][..k] == inp[p..p + k]
  {}

  lemma IntegerIsCollected(inp: string, p: nat, kind: char, limit: nat, n: nat)
    requires p <= |inp| && limit > 0 && n == LengthOf(kind, inp[p..], limit)
    ensures IntegerPiece(inp, p, kind, limit, n)
  {
    hide IntegerText, LengthOf;
    var s := inp[p..];
    var r := ReachOf(kind, s, limit);
    CollectedIsInteger(kind, s, limit, r);
    SliceOf(inp, p, n);
    assert IntegerText(kind, inp[p..p + n], r.sign, r.prefix);
    forall k: nat | k <= limit && IntegerAt(inp, p, k, kind) ensures k <= n {
      var a: nat, z: nat :| IntegerText(kind, inp[p..p + k], a, z);
      SliceOf(inp, p, k);
      CollectsLongest(kind, s, limit, k, a, z);
    }
  }

  predicate IsSignedConv(kind: char) {
    kind == 'd' || kind == 'i'
  }

  /** How many characters an integer conversion collects at most: no more than inp_buf has cells. */
  function IntLimit(w: Option<nat>): nat {
    if w.Some? && w.value < 512 then w.value else 512
  }

  /** The word that an integer text stands for: the C99 value, saturated, and cut to 16 bits for
      a short. */
  ghost predicate IsStored(v: uint32, t: string, kind: char, q: string) {
    exists r: uint32 ::
      Saturates(r, StandardValue(t, ConvBase(kind)), IsSignedConv(kind))
      && v == if SizeOf(q) == Short then r % 0x10000 else r
  }

  lemma IntIsStored(d: Directive, t: string, kind: char, q: string)
    requires IsIntConv(kind) && d.Kind() == kind && d.size == SizeOf(q)
    ensures IsStored(IntValue(d, t), t, kind, q)
  {
    var signed := IsSignedConv(kind);
    assert BaseFor(kind) == ConvBase(kind) && IsSignedKind(kind) == signed;
    hide Scanned, StandardValue, Saturates, ConvBase, BaseFor, SizeOf, IsSignedConv, IsSignedKind, IsIntConv;
    ScannedSaturates(t, ConvBase(kind), signed);
    var r := Scanned(t, ConvBase(kind), signed);
    assert Saturates(r, StandardValue(t, ConvBase(kind)), signed);
    assert IntValue(d, t) == if SizeOf(q) == Short then r % 0x10000 else r;
  }

  /** A turn that has stored an integer. */
  ghost predicate IntegerTaken(o: Outcome, st: State, star: bool, p: nat, t: string, kind: char, q: string,
                               rest: string) {
    && o.Go? && o.st.f == rest && o.st.pos == p + |t| && o.st.over == st.over && o.st.conv == st.conv + 1
    && o.st.done == st.done + (if star then 0 else 1)
    && if star then o.st.stores == st.stores
       else
         && |o.st.stores| == |st.stores| + 1 && o.st.stores[..|st.stores|] == st.stores
         && o.st.stores[|st.stores|].IntStore? && o.st.stores[|st.stores|].size == SizeOf(q)
         && IsStored(o.st.stores[|st.stores|].v, t, kind, q)
  }

  lemma OutcomeOfInteger(st: State, d: Directive, p: nat, t: string, kind: char, q: string, ic: Input)
    requires IsIntConv(kind) && d.Kind() == kind && d.size == SizeOf(q) && d.rest != ""
    ensures var o := IntOutcome(st.(pos := p), d, t, ic);
            if t == "" || t == "+" || t == "-" then o == Stop(Result(st.done, st.stores, p + |t|))
            else IntegerTaken(o, st, d.noAssign, p, t, kind, q, d.rest[1..])
  {
    hide IntValue, IsStored, BareSign, SizeOf, IsIntConv;
    IntIsStored(d, t, kind, q);
    BareSigns(t);
  }

  lemma BareSigns(t: string)
    ensures BareSign(t) <==> t == "+" || t == "-"
  {}

  lemma DirectedIsInteger(inp: string, st: State, d: Directive, p: nat, limit: nat, n: nat)
    requires st.pos <= |inp| && IsIntKind(d.Kind()) && limit == IntWidth(d) && limit > 0
    requires p == st.pos + SpaceRun(inp[st.pos..]) && p < |inp| && n == LengthOf(d.Kind(), inp[p..], limit)
    ensures d.rest != "" && p + n <= |inp|
    ensures Directed(inp, st, d) == IntOutcome(st.(pos := p), d, inp[p..p + n], At(inp, p))
  {
    hide IntOutcome, IntConversion, Directed, Conversion, LengthOf, IntWidth;
    DirectedIsConversion(inp, st, d, p);
    ConversionIsInteger(inp, st.(pos := p), d);
    IntUnfold(inp, st.(pos := p), d, n);
  }

  lemma DirectedIsConversion(inp: string, st: State, d: Directive, p: nat)
    requires st.pos <= |inp| && IsIntKind(d.Kind()) && p == st.pos + SpaceRun(inp[st.pos..]) && p < |inp|
    ensures Directed(inp, st, d) == Conversion(inp, st.(pos := p), d)
  {
    hide Conversion;
  }

  lemma ConversionIsInteger(inp: string, st: State, d: Directive)
    requires st.pos < |inp| && IsIntKind(d.Kind())
    ensures Conversion(inp, st, d) == IntConversion(inp, st, d)
  {
    hide IntConversion;
  }

  lemma NoIntegerThere(inp: string, st: State, d: Directive, p: nat)
    requires st.pos <= |inp| && IsIntKind(d.Kind()) && p == st.pos + SpaceRun(inp[st.pos..]) == |inp|
    ensures Directed(inp, st, d) == Stop(Result(if st.conv > 0 then st.done else -1, st.stores, p))
  {}

  /** An integer conversion passes over white space, takes the longest integer text of its kind,
      and stores its C99 value, saturated to the limits of its type. */
  lemma IntegerTakes(inp: string, st: State, star: bool, w: Option<nat>, q: string, kind: char, rest: string)
    returns (p: nat, n: nat)
    requires st.pos <= |inp| && IsDirective(st, star, w, q, kind, rest) && IsIntConv(kind)
    ensures BlanksEnd(inp, st.pos, p) && p + n <= |inp|
    ensures p < |inp| ==> IntegerPiece(inp, p, kind, IntLimit(w), n)
    ensures var t := inp[p..p + n];
            if p == |inp| then Turn(inp, st) == Stop(Result(if st.conv > 0 then st.done else -1, st.stores, p))
            else if t == "" || t == "+" || t == "-" then Turn(inp, st) == Stop(Result(st.done, st.stores, p + n))
            else IntegerTaken(Turn(inp, st), st, star, p, t, kind, q, rest)
  {
    hide Turn, Directed, DirectiveText, WidthText, SizeOf, IsQualifierText, IntOutcome, IntegerPiece, BlanksEnd,
         IntegerTaken, LengthOf;
    var d := DirectiveFor(star, w, q, kind, rest);
    TurnIsDirected(inp, st, star, w, q, kind, rest);
    p, n := st.pos + SpaceRun(inp[st.pos..]), 0;
    SpaceRunEnds(inp, st.pos);
    if p < |inp| {
      n := LengthOf(kind, inp[p..], IntLimit(w));
      IntegerIsCollected(inp, p, kind, IntLimit(w), n);
      DirectedIsInteger(inp, st, d, p, IntLimit(w), n);
      OutcomeOfInteger(st, d, p, inp[p..p + n], kind, q, At(inp, p));
    } else {
      NoIntegerThere(inp, st, d, p);
    }
  }

  /** %n consumes nothing and stores the number of characters consumed so far. */
  lemma CountTaken(inp: string, st: State, star: bool, q: string, rest: string)
    requires st.pos <= |inp| && IsDirective(st, star, None, q, 'n', rest)
    ensures Turn(inp, st)
         == Go(State(rest, st.pos, st.done, st.conv + 1, st.ic,
                     if star then st.stores
                     else st.stores + [CountStore(SizeOf(q), if q == "h" then (st.pos + st.over) % 0x10000
                                                             else st.pos + st.over)], st.over))
  {
    hide DirectiveText, Turn, IsQualifierText;
    TurnIsDirected(inp, st, star, None, q, 'n', rest);
  }

  // ------------------------------------------------ Literals, blanks, the end

  /** A literal below 128, or the "%%" for a '%': it takes the same character, and anything else
      in its place ends the scan behind it. */
  lemma LiteralTaken(inp: string, st: State, c: char, rest: string)
    requires st.pos <= |inp| && st.f == (if c == '%' then "%%" else [c]) + rest
    requires !IsSpace(c) && c != '\0' && c as int < 128
    ensures Turn(inp, st)
         == if st.pos == |inp| then Stop(Result(if st.conv > 0 then st.done else -1, st.stores, st.pos))
            else if inp[st.pos] != c then Stop(Result(st.done, st.stores, st.pos + 1))
            else Go(State(rest, st.pos + 1, st.done, st.conv, Ch(c), st.stores, st.over))
  {
    hide DirectiveOf, Directed;
    if c == '%' {
      assert CharAt(st.f, 1) == '%' && st.f[2..] == rest;
    } else {
      assert st.f[1..] == rest;
    }
  }

  /** White space of the format passes over any white space of the input, and the turn goes on
      with what stands behind. */
  lemma BlanksTaken(inp: string, st: State, ws: string, rest: string) returns (p: nat)
    requires st.pos <= |inp| && st.f == ws + rest && ws != "" && AllSpace(ws) && !IsSpace(CharAt(rest, 0))
    ensures BlanksEnd(inp, st.pos, p)
    ensures Turn(inp, st) == Turn(inp, st.(f := rest, pos := p, ic := At(inp, p)))
  {
    hide Item;
    p := st.pos + SpaceRun(inp[st.pos..]);
    SpaceRunEnds(inp, st.pos);
    assert (ws + rest)[..|ws|] == ws && (ws + rest)[|ws|..] == rest;
    SpaceRunIs(ws + rest, |ws|);
  }

  /** At the end of the format the result is the number of assignments, or EOF when nothing was
      converted and the input had ended. */
  lemma EndTaken(inp: string, st: State)
    requires st.pos <= |inp| && st.f == ""
    ensures Turn(inp, st)
         == Stop(Result(if st.conv == 0 && st.ic == EOF then -1 else st.done, st.stores, st.pos))
  {}

  // ------------------------------------------------------------- Whole scans

  /** A format that is one %[ directive, on any input: the longest piece that the set takes is
      stored and 1 returned; where there is none, nothing is stored or consumed, and the result
      is 0, or EOF for an empty input. */
  lemma ScanSet(inp: string, w: Option<nat>, reverse: bool, bracket: bool, ps: seq<Part>, dash: bool)
    returns (n: nat)
    requires ValidSet(reverse, bracket, ps, dash) && (w.Some? ==> 0 < w.value < TWO_TO_THE_32)
    ensures SetPiece(inp, 0, Limit(w, 65535), reverse, bracket, ps, dash, n)
    ensures Scan(inp, "%" + (WidthText(w) + ("[" + SetText(reverse, bracket, ps, dash, ""))))
         == if n > 0 then Result(1, [TextStore(inp[..n])], n) else Result(if inp == "" then -1 else 0, [], 0)
  {
    hide SetPiece, SetText, ValidSet, WidthText, Turn, Run;
    var f := "%" + (WidthText(w) + ("[" + SetText(reverse, bracket, ps, dash, "")));
    OneDirective(w, '[', SetText(reverse, bracket, ps, dash, ""));
    n := SetTakes(inp, Initial(f), false, w, "", reverse, bracket, ps, dash, "");
    assert inp[0..0 + n] == inp[..n];
    RunOfOne(inp, f, n);
  }

  lemma OneDirective(w: Option<nat>, kind: char, rest: string)
    requires IsScanConv(kind) && (w.Some? ==> 0 < w.value < TWO_TO_THE_32)
    ensures IsDirective(Initial("%" + (WidthText(w) + ([kind] + rest))), false, w, "", kind, rest)
  {
    ConcatEmpty([kind] + rest);
    ConcatEmpty(WidthText(w) + ([kind] + rest));
  }

  /** A scan whose first turn is its last one but for the end of the format. */
  lemma RunOfOne(inp: string, f: string, n: nat)
    requires CharAt(f, 0) != '\0' && n <= |inp|
    requires Turn(inp, Initial(f)).Go? ==> Turn(inp, Initial(f)).st.f == ""
    ensures var o := Turn(inp, Initial(f)); Scan(inp, f) == if o.Go? then Final(o.st) else o.r
  {
    var o := Turn(inp, Initial(f));
    if o.Go? {
      assert Turn(inp, o.st) == Stop(Final(o.st));
      assert Run(inp, o.st) == Final(o.st);
    }
  }
}
