/** What `_doscan` returns, for every format and every input: the number of assignments made
    through pointers other than those of %n, or EOF with no assignment at all. */
module ScanCounts {
  import opened Numerals
  import opened Streams
  import opened Collect
  import opened ScanSpec

  /** The assignments that count, src/_doscan.c:645. */
  function Assigned(stores: seq<Store>): nat {
    if stores == [] then 0
    else Assigned(stores[..|stores| - 1]) + if stores[|stores| - 1].CountStore? then 0 else 1
  }

  predicate GoodState(inp: string, st: State) {
    st.pos <= |inp| && st.done == Assigned(st.stores) && (st.conv == 0 ==> st.stores == [])
  }

  predicate GoodResult(inp: string, r: Result) {
    && r.pos <= |inp|
    && (r.ret == Assigned(r.stores) || (r.ret == -1 && r.stores == []))
  }

  predicate GoodOutcome(inp: string, o: Outcome) {
    match o
    case Go(st) => GoodState(inp, st)
    case Stop(r) => GoodResult(inp, r)
  }

  lemma AssignedMore(stores: seq<Store>, s: Store)
    ensures Assigned(stores + [s]) == Assigned(stores) + if s.CountStore? then 0 else 1
  {
    assert (stores + [s])[..|stores|] == stores;
  }

  lemma FinalIsGood(inp: string, st: State)
    requires GoodState(inp, st)
    ensures GoodResult(inp, Final(st))
  {}

  lemma ConvertedIsGood(inp: string, st: State, d: Directive, rest: string, pos: nat, ic: Input, store: Store)
    requires GoodState(inp, st) && pos <= |inp| && !store.CountStore?
    ensures GoodState(inp, Converted(st, d, rest, pos, ic, store))
  {
    AssignedMore(st.stores, store);
  }

  lemma CountIsGood(inp: string, st: State, d: Directive)
    requires GoodState(inp, st) && d.rest != ""
    ensures GoodOutcome(inp, CountConversion(st, d))
  {
    AssignedMore(st.stores, CountStore(d.size, if d.size == Short then st.Count() % 0x10000 else st.Count()));
  }

  lemma IntIsGood(inp: string, st: State, d: Directive)
    requires GoodState(inp, st) && st.pos < |inp| && IsIntKind(d.Kind())
    ensures GoodOutcome(inp, IntConversion(inp, st, d))
  {
    hide IntValue;
    if IntWidth(d) > 0 {
      var len := LengthOf(d.Kind(), inp[st.pos..], IntWidth(d));
      var text := inp[st.pos..st.pos + len];
      IntUnfold(inp, st, d, len);
      ConvertedIsGood(inp, st, d, d.rest[1..], st.pos + |text|, At(inp, st.pos), IntStore(d.size, IntValue(d, text)));
    }
  }

  lemma FieldIsGood(inp: string, st: State, d: Directive, cl: Class, width: nat, rest: string)
    requires GoodState(inp, st) && st.pos < |inp|
    ensures GoodOutcome(inp, FieldConversion(inp, st, d, cl, width, rest))
  {
    var n := ClassRun(inp[st.pos..], cl, width);
    var text := inp[st.pos..st.pos + n];
    var ic := if n == width && n > 0 then At(inp, st.pos + n - 1) else At(inp, st.pos + n);
    ConvertedIsGood(inp, st, d, rest, st.pos + n, ic, if cl == Any then CharStore(text) else TextStore(text));
  }

  lemma ConversionIsGood(inp: string, st: State, d: Directive)
    requires GoodState(inp, st) && st.pos < |inp|
    ensures GoodOutcome(inp, Conversion(inp, st, d))
  {
    hide IntConversion, FieldConversion, ScansetOf;
    var kind := d.Kind();
    if IsIntKind(kind) {
      IntIsGood(inp, st, d);
    } else if kind == 'c' || kind == 's' || kind == '[' {
      var width := if d.widthSpec then d.width else if kind == 'c' then 1 else 0xffff;
      var (reverse, table, rest) := ScansetOf(d.rest[1..]);
      FieldIsGood(inp, st, d, Any, width, d.rest[1..]);
      FieldIsGood(inp, st, d, NonSpace, width, d.rest[1..]);
      if CharAt(rest, 0) != '\0' {
        FieldIsGood(inp, st, d, InTable(table, reverse), width, rest[1..]);
      }
    }
  }

  lemma DirectedIsGood(inp: string, st: State, d: Directive)
    requires GoodState(inp, st)
    ensures GoodOutcome(inp, Directed(inp, st, d))
  {
    hide Conversion, CountConversion;
    if d.Kind() == 'n' {
      CountIsGood(inp, st, d);
    } else {
      var pos := FirstOf(inp, st.pos, d.Kind());
      if pos == |inp| {
        FinalIsGood(inp, st.(pos := pos, ic := EOF));
      } else {
        ConversionIsGood(inp, st.(pos := pos), d);
      }
    }
  }

  lemma LiteralIsGood(inp: string, st: State, c: char, rest: string)
    requires GoodState(inp, st)
    ensures GoodOutcome(inp, Literal(inp, st, c, rest))
  {}

  lemma TurnIsGood(inp: string, st0: State)
    requires GoodState(inp, st0)
    ensures GoodOutcome(inp, Turn(inp, st0))
  {
    hide Literal, Directed, DirectiveOf;
    var st := Skipped(inp, st0);
    FinalIsGood(inp, st);
    if CharAt(st.f, 0) != '\0' {
      LiteralIsGood(inp, st, st.f[0], st.f[1..]);
      if CharAt(st.f, 1) == '%' {
        LiteralIsGood(inp, st, '%', st.f[2..]);
      }
      DirectedIsGood(inp, st, DirectiveOf(st.f[1..]));
    }
  }

  lemma {:induction false} RunIsGood(inp: string, st: State)
    requires GoodState(inp, st)
    ensures GoodResult(inp, Run(inp, st))
    decreases |st.f|
  {
    hide Turn;
    TurnIsGood(inp, st);
    if Turn(inp, st).Go? {
      RunIsGood(inp, Turn(inp, st).st);
    }
  }

  /** For every format and every input, `_doscan` returns the number of assignments other than
      %n, or EOF having assigned nothing, and consumes no more than the input. */
  lemma ReturnsTheCount(inp: string, format: string)
    ensures var r := Scan(inp, format);
            && r.pos <= |inp|
            && (r.ret == Assigned(r.stores) || (r.ret == -1 && r.stores == []))
  {
    hide Run;
    RunIsGood(inp, Initial(format));
  }
}
