/** What holds of every run of `_doscan`: how the format is consumed, when the number buffer
    is large enough, and when `nrchars` is the position in the input. */
module ScanRuns {
  import opened Numerals
  import opened Streams
  import opened Collect
  import opened ScanSpec

  // --------------------------------------------------- The format of a run

  /** The format behind its first literal or directive, whatever the input is. */
  function AfterItem(g: string): (rest: string)
    requires CharAt(g, 0) != '\0'
    ensures |rest| < |g|
  {
    if g[0] != '%' then g[1..]
    else if CharAt(g, 1) == '%' then g[2..]
    else
      var d := DirectiveOf(g[1..]);
      if d.rest == "" then ""
      else if d.Kind() != '[' then d.rest[1..]
      else
        var rest := ScansetOf(d.rest[1..]).2;
        if rest == "" then "" else rest[1..]
  }

  /** `o` goes on with the format `rest`, no earlier in the input, and with the assignments so
      far still there. */
  predicate MovesOn(o: Outcome, inp: string, st: State, rest: string) {
    o.Go? ==> o.st.f == rest && st.pos <= o.st.pos <= |inp| && st.stores <= o.st.stores
  }

  lemma ConversionMovesOn(inp: string, st: State, d: Directive, rest: string)
    requires st.pos < |inp|
    requires d.rest != "" && d.Kind() != '[' ==> rest == d.rest[1..]
    requires d.rest != "" && d.Kind() == '[' && ScansetOf(d.rest[1..]).2 != "" ==> rest == ScansetOf(d.rest[1..]).2[1..]
    ensures MovesOn(Conversion(inp, st, d), inp, st, rest)
    ensures Conversion(inp, st, d).Go? ==> Conversion(inp, st, d).st.over == st.over
  {
    hide IntValue, ScansetOf, LengthOf, ClassRun;
  }

  lemma DirectedMovesOn(inp: string, st: State, d: Directive, rest: string)
    requires st.pos <= |inp|
    requires d.rest != "" && d.Kind() != '[' ==> rest == d.rest[1..]
    requires d.rest != "" && d.Kind() == '[' && ScansetOf(d.rest[1..]).2 != "" ==> rest == ScansetOf(d.rest[1..]).2[1..]
    ensures MovesOn(Directed(inp, st, d), inp, st, rest)
    ensures Directed(inp, st, d).Go? ==> Directed(inp, st, d).st.over == st.over
  {
    hide Conversion, ScansetOf;
    var pos := FirstOf(inp, st.pos, d.Kind());
    if d.Kind() != 'n' && pos < |inp| {
      ConversionMovesOn(inp, st.(pos := pos), d, rest);
    }
  }

  /** The turn compares a literal 0xFF, which as a signed char is EOF, with the end of the
      input (src/_doscan.c:405-409). */
  predicate MeetsEnd(inp: string, st: State)
    requires st.pos <= |inp|
  {
    CharAt(FormatSkipped(st.f), 0) == '\U{00FF}' && Skipped(inp, st).pos == |inp|
  }

  /** The characters of an input are bytes. */
  predicate IsBytes(s: string) {
    forall i :: 0 <= i < |s| ==> s[i] as int < 256
  }

  lemma LiteralMovesOn(inp: string, st: State, c: char, rest: string)
    requires st.pos <= |inp| && IsBytes(inp) && c as int < 256
    ensures MovesOn(Literal(inp, st, c, rest), inp, st, rest)
    ensures var o := Literal(inp, st, c, rest);
            && (o.Go? <==>
                (st.pos < |inp| && inp[st.pos] == c && c as int < 128) || (st.pos == |inp| && c == '\U{00FF}'))
            && (o.Go? ==> o.st.over == st.over + if st.pos == |inp| then 1 else 0)
  {}

  /** A literal consumes one character of the input if there is one, whether it matches or not:
      nothing is pushed back. */
  lemma LiteralIsConsumed(inp: string, st: State, c: char, rest: string)
    requires st.pos <= |inp|
    ensures var o := Literal(inp, st, c, rest);
            (if o.Go? then o.st.pos else o.r.pos) == if st.pos < |inp| then st.pos + 1 else st.pos
  {}

  lemma ItemMovesOn(inp: string, st: State)
    requires st.pos <= |inp| && IsBytes(inp) && IsBytes(st.f)
    ensures CharAt(st.f, 0) != '\0' ==> MovesOn(Item(inp, st), inp, st, AfterItem(st.f))
    ensures CharAt(st.f, 0) == '\0' ==> Item(inp, st).Stop?
    ensures Item(inp, st).Go? ==>
              Item(inp, st).st.over == st.over + if CharAt(st.f, 0) == '\U{00FF}' && st.pos == |inp| then 1 else 0
  {
    hide Literal, Directed, DirectiveOf, ScansetOf;
    if CharAt(st.f, 0) != '\0' {
      if st.f[0] != '%' {
        LiteralMovesOn(inp, st, st.f[0], st.f[1..]);
      } else if CharAt(st.f, 1) == '%' {
        LiteralMovesOn(inp, st, '%', st.f[2..]);
      } else {
        DirectedMovesOn(inp, st, DirectiveOf(st.f[1..]), AfterItem(st.f));
      }
    }
  }

  /** What is left of a format has no character that the format has not. */
  predicate Within(rest: string, f: string) {
    forall c :: c in rest ==> c in f
  }

  lemma AfterItemIsWithin(g: string)
    requires CharAt(g, 0) != '\0'
    ensures Within(AfterItem(g), g)
  {
    if g[0] == '%' && CharAt(g, 1) != '%' {
      hide DirectiveOf, ScansetOf;
      DirectiveIsWithin(g[1..]);
      var d := DirectiveOf(g[1..]);
      TailIsWithin(g, 1, d.rest);
      if d.rest != "" {
        TailIsWithin(d.rest, 1, d.rest[1..]);
        if d.Kind() == '[' {
          var rest := ScansetOf(d.rest[1..]).2;
          ScansetIsWithin(d.rest[1..]);
          if rest != "" {
            TailIsWithin(rest, 1, rest[1..]);
          }
        }
      }
    }
  }

  lemma TailIsWithin(f: string, n: nat, rest: string)
    requires n <= |f| && Within(rest, f[n..])
    ensures Within(rest, f)
  {
    assert forall c :: c in f[n..] ==> c in f;
  }

  lemma {:induction false} WidthIsWithin(f: string, width: nat)
    ensures Within(ScanWidthOf(f, width).0, f)
    decreases |f|
  {
    if f != "" && IsDecimal(f[0]) {
      WidthIsWithin(f[1..], (width * 10 + (f[0] as int - '0' as int)) % TWO_TO_THE_32);
    }
  }

  lemma DirectiveIsWithin(f: string)
    ensures Within(DirectiveOf(f).rest, f)
  {
    WidthIsWithin(if CharAt(f, 0) == '*' then f[1..] else f, 0);
  }

  lemma {:induction false} TableIsWithin(f: string, t: set<char>)
    ensures Within(TableOf(f, t).1, f)
    decreases |f|
  {
    if CharAt(f, 0) != '\0' && f[0] != ']' {
      var t1, g := Marked(t, f[0]), f[1..];
      if CharAt(g, 0) != '-' {
        TableIsWithin(g, t1);
      } else {
        var h := g[1..];
        var e := CharAt(h, 0);
        if e != '\0' && e != ']' && e >= f[0] {
          TableIsWithin(h[1..], WithRange(t1, f[0] as int + 1, e as int));
        } else {
          TableIsWithin(h, Marked(t1, '-'));
        }
      }
    }
  }

  lemma ScansetIsWithin(f: string)
    ensures Within(ScansetOf(f).2, f)
  {
    var f1 := if CharAt(f, 0) == '^' then f[1..] else f;
    TableIsWithin(if CharAt(f1, 0) == ']' then f1[1..] else f1, if CharAt(f1, 0) == ']' then {']'} else {});
  }

  lemma RestIsWithin(f: string)
    requires CharAt(FormatSkipped(f), 0) != '\0'
    ensures Within(AfterItem(FormatSkipped(f)), f)
    ensures IsBytes(f) ==> IsBytes(AfterItem(FormatSkipped(f)))
  {
    hide AfterItem;
    var g := FormatSkipped(f);
    AfterItemIsWithin(g);
    TailIsWithin(f, |f| - |g|, AfterItem(g));
    BytesWithin(AfterItem(g), f);
  }

  lemma BytesWithin(rest: string, f: string)
    requires Within(rest, f)
    ensures IsBytes(f) ==> IsBytes(rest)
  {
    assert forall i :: 0 <= i < |rest| ==> rest[i] in f;
  }

  /** Every turn that goes on leaves a format that does not depend on the input, moves forward
      only, keeps the assignments made, and counts a character too many exactly when a literal
      0xFF meets the end of the input. */
  lemma TurnMovesOn(inp: string, st: State)
    requires st.pos <= |inp| && IsBytes(inp) && IsBytes(st.f) && Turn(inp, st).Go?
    ensures CharAt(FormatSkipped(st.f), 0) != '\0' && IsBytes(AfterItem(FormatSkipped(st.f)))
    ensures MovesOn(Turn(inp, st), inp, st, AfterItem(FormatSkipped(st.f)))
    ensures Turn(inp, st).st.over == st.over + if MeetsEnd(inp, st) then 1 else 0
  {
    hide Item, AfterItem;
    assert Turn(inp, st) == Item(inp, Skipped(inp, st));
    ItemMovesOn(inp, Skipped(inp, st));
    RestIsWithin(st.f);
  }

  // --------------------------------------------------- The number buffer

  /** Every integer directive of the format has a width, and it is below NUMLEN. */
  predicate NarrowInts(f: string)
    decreases |f|
  {
    var g := FormatSkipped(f);
    CharAt(g, 0) != '\0' ==>
      && (g[0] == '%' && CharAt(g, 1) != '%' ==>
            var d := DirectiveOf(g[1..]);
            IsIntKind(d.Kind()) ==> d.widthSpec && d.width < NUMLEN)
      && NarrowInts(AfterItem(g))
  }

  lemma NumberHasRoom(inp: string, pos: nat, d: Directive)
    requires pos <= |inp|
    requires |inp| < NUMLEN || (IsIntKind(d.Kind()) ==> d.widthSpec && d.width < NUMLEN)
    ensures NumberFits(inp, pos, d)
  {
    hide IsIntKind;
  }

  lemma TurnHasRoom(inp: string, st: State)
    requires st.pos <= |inp| && (|inp| < NUMLEN || NarrowInts(st.f))
    ensures TurnFits(inp, st)
  {
    hide DirectiveOf, AfterItem, NumberFits;
    var st1 := Skipped(inp, st);
    if CharAt(st1.f, 0) == '%' && CharAt(st1.f, 1) != '%' {
      var d := DirectiveOf(st1.f[1..]);
      NumberHasRoom(inp, FirstOf(inp, st1.pos, d.Kind()), d);
    }
  }

  lemma {:induction false} RunHasRoom(inp: string, st: State)
    requires st.pos <= |inp| && IsBytes(inp) && IsBytes(st.f)
    requires |inp| < NUMLEN || NarrowInts(st.f)
    ensures RunFits(inp, st)
    decreases |st.f|
  {
    TurnHasRoom(inp, st);
    if Turn(inp, st).Go? {
      TurnMovesOn(inp, st);
      hide Turn, TurnFits, AfterItem;
      RunHasRoom(inp, Turn(inp, st).st);
    }
  }

  /** The 512 cells of inp_buf are enough, terminator included, when the input is shorter than
      512 characters or every integer directive has a width below 512. */
  lemma BufferSuffices(inp: string, format: string)
    requires IsBytes(inp) && IsBytes(format) && (|inp| < NUMLEN || NarrowInts(format))
    ensures ScanFits(inp, format)
  {
    RunHasRoom(inp, Initial(format));
  }

  /** 512 digits and a %d: the terminator does not fit any more. */
  lemma BufferOverrun()
    ensures !ScanFits(Repeat('1', NUMLEN), "%d")
  {
    var inp, st := Repeat('1', NUMLEN), Initial("%d");
    assert "%d"[1..] == "d" && inp[0..] == inp;
    assert DirectiveOf("d") == Directive(false, false, 0, Int, "d");
    SpaceRunIs(inp, 0);
    WidthIsReached(NUMLEN);
    assert !NumberFits(inp, 0, DirectiveOf("d"));
  }

  // --------------------------------------------------- Count and position

  /** `k` turns lead from `st` to `t`. */
  ghost predicate Reaches(inp: string, st: State, k: nat, t: State)
    requires st.pos <= |inp|
    decreases k
  {
    if k == 0 then t == st else Turn(inp, st).Go? && Reaches(inp, Turn(inp, st).st, k - 1, t)
  }

  /** One of the first `k` turns meets the end of the input with a literal 0xFF. */
  ghost predicate EndIsMet(inp: string, st: State, k: nat)
    requires st.pos <= |inp|
    decreases k
  {
    k > 0 && (MeetsEnd(inp, st) || (Turn(inp, st).Go? && EndIsMet(inp, Turn(inp, st).st, k - 1)))
  }

  lemma {:induction false} CountFollows(inp: string, st: State, k: nat, t: State)
    requires st.pos <= |inp| && IsBytes(inp) && IsBytes(st.f) && Reaches(inp, st, k, t)
    ensures t.over >= st.over && (t.over == st.over <==> !EndIsMet(inp, st, k))
    decreases k
  {
    hide Turn, AfterItem, MeetsEnd;
    if k > 0 {
      TurnMovesOn(inp, st);
      CountFollows(inp, Turn(inp, st).st, k - 1, t);
    }
  }

  /** For every format and input, and after any number of turns: `nrchars`, and so what a %n
      stores next, is the position in the input if and only if no literal 0xFF has met the end
      of the input. */
  lemma CountIsPositionIff(inp: string, format: string, k: nat, t: State)
    requires IsBytes(inp) && IsBytes(format) && Reaches(inp, Initial(format), k, t)
    ensures t.Count() == t.pos <==> !EndIsMet(inp, Initial(format), k)
  {
    CountFollows(inp, Initial(format), k, t);
  }

  lemma {:induction false} EndIsNeverMet(inp: string, st: State, k: nat)
    requires st.pos <= |inp| && IsBytes(inp) && IsBytes(st.f) && '\U{00FF}' !in st.f
    ensures !EndIsMet(inp, st, k)
    decreases k
  {
    hide Turn, AfterItem;
    if k > 0 && Turn(inp, st).Go? {
      TurnMovesOn(inp, st);
      RestIsWithin(st.f);
      EndIsNeverMet(inp, Turn(inp, st).st, k - 1);
    }
  }

  /** With a format that has no byte 0xFF, every %n stores the exact position. */
  lemma CountIsPosition(inp: string, format: string, k: nat, t: State)
    requires IsBytes(inp) && IsBytes(format) && '\U{00FF}' !in format && Reaches(inp, Initial(format), k, t)
    ensures t.Count() == t.pos
  {
    EndIsNeverMet(inp, Initial(format), k);
    CountFollows(inp, Initial(format), k, t);
  }

  lemma TurnAtEnd(st: State)
    requires st.pos == 0 && st.f == "\U{00FF}%n"
    ensures Turn("", st) == Go(st.(f := "%n", ic := EOF, over := st.over + 1))
  {
    hide Directed, DirectiveOf;
    assert st.f[1..] == "%n";
  }

  lemma TurnOfCount(st: State)
    requires st.pos == 0 && st.f == "%n"
    ensures Turn("", st) == Go(st.(f := "", conv := st.conv + 1, stores := st.stores + [CountStore(Int, st.over)]))
  {
    hide Literal, Conversion;
    assert "%n"[1..] == "n" && "n"[1..] == "";
    assert DirectiveOf("n") == Directive(false, false, 0, Int, "n");
  }

  lemma TurnOfNothing(st: State)
    requires st.pos == 0 && st.f == ""
    ensures Turn("", st) == Stop(Final(st))
  {
    hide Literal, Directed;
  }

  lemma RunSteps(inp: string, st: State, st1: State)
    requires st.pos <= |inp| && Turn(inp, st) == Go(st1)
    ensures st1.pos <= |inp| && Run(inp, st) == Run(inp, st1)
  {
    hide Item;
  }

  lemma RunStops(inp: string, st: State, r: Result)
    requires st.pos <= |inp| && Turn(inp, st) == Stop(r)
    ensures Run(inp, st) == r
  {
    hide Item;
  }

  /** On an empty input the format 0xFF %n stores 1, with nothing consumed. */
  lemma CountOffAtEnd()
    ensures Scan("", "\U{00FF}%n") == Result(0, [CountStore(Int, 1)], 0)
  {
    hide Turn, Run;
    var st := Initial("\U{00FF}%n");
    var st1 := st.(f := "%n", ic := EOF, over := 1);
    var st2 := st1.(f := "", conv := 1, stores := [] + [CountStore(Int, 1)]);
    TurnAtEnd(st);
    RunSteps("", st, st1);
    TurnOfCount(st1);
    RunSteps("", st1, st2);
    TurnOfNothing(st2);
    RunStops("", st2, Final(st2));
  }
}
