/** What `_doscan` (src/_doscan.c:368-649) does with a format and an input: one turn of its
    outer loop as a function on states, and the run that the turns make up.

    A state holds the position in the input and, apart from it, how often `nrchars` was
    counted up at the end of the input. */
module ScanSpec {
  import opened Numerals
  import opened Streams
  import opened Strtol
  import opened Collect

  const NUMLEN := 512

  datatype Size = Int | Short | Long

  /** One assignment through an argument pointer. */
  datatype Store =
    | IntStore(size: Size, v: uint32)
    | TextStore(text: string)          // %s and %[, with a terminating NUL
    | CharStore(text: string)          // %c, without one
    | CountStore(size: Size, n: nat)   // %n

  function Narrow(size: Size, v: uint32): uint32 {
    if size == Short then v % 0x10000 else v
  }

  /** A directive: what stands between '%' and the conversion character, which is the first
      character of `rest`. */
  datatype Directive = Directive(noAssign: bool, widthSpec: bool, width: nat, size: Size, rest: string) {
    function Kind(): char {
      CharAt(rest, 0)
    }
  }

  function ScanWidthOf(f: string, width: nat): (r: (string, nat))
    ensures |r.0| <= |f|
  {
    if f != "" && IsDecimal(f[0]) then
      ScanWidthOf(f[1..], (width * 10 + (f[0] as int - '0' as int)) % TWO_TO_THE_32)
    else (f, width)
  }

  function DirectiveOf(f: string): (d: Directive)
    ensures |d.rest| <= |f|
  {
    var noAssign := CharAt(f, 0) == '*';
    var f1 := if noAssign then f[1..] else f;
    var widthSpec := IsDecimal(CharAt(f1, 0));
    var (f2, width) := ScanWidthOf(f1, 0);
    var q := CharAt(f2, 0);
    Directive(noAssign, widthSpec, width, if q == 'h' then Short else if q == 'l' then Long else Int,
              if q == 'h' || q == 'l' || q == 'L' then f2[1..] else f2)
  }

  // ------------------------------------------------------------ Character sets

  /** Marks a 7-bit character. Beyond those the C code would index outside its table, to
      which C gives no meaning; here nothing is marked. */
  function Marked(t: set<char>, c: char): set<char> {
    if c as int < 128 then t + {c} else t
  }

  /** Marks the characters from `lo` to `hi`. */
  function WithRange(t: set<char>, lo: nat, hi: nat): set<char>
    decreases 128 - lo
  {
    if lo > hi || lo >= 128 then t else WithRange(Marked(t, lo as char), lo + 1, hi)
  }

  /** src/_doscan.c:563-579. A '-' between two characters in order is a range. */
  function TableOf(f: string, t: set<char>): (r: (set<char>, string))
    ensures |r.1| <= |f|
    decreases |f|
  {
    if CharAt(f, 0) == '\0' || f[0] == ']' then (t, f)
    else
      var t1 := Marked(t, f[0]);
      var g := f[1..];
      if CharAt(g, 0) != '-' then TableOf(g, t1)
      else
        var h := g[1..];
        var e := CharAt(h, 0);
        if e != '\0' && e != ']' && e >= f[0] then TableOf(h[1..], WithRange(t1, f[0] as int + 1, e as int))
        else TableOf(h, Marked(t1, '-'))
  }

  /** src/_doscan.c:552-579: the set behind a '['. The last part starts at the closing ']',
      or is at the end when there is none. */
  function ScansetOf(f: string): (r: (bool, set<char>, string))
    ensures |r.2| <= |f|
  {
    var reverse := CharAt(f, 0) == '^';
    var f1 := if reverse then f[1..] else f;
    var bracket := CharAt(f1, 0) == ']';
    var (t, rest) := TableOf(if bracket then f1[1..] else f1,
                             if bracket then {']'} else {});
    (reverse, t, rest)
  }

  /** The characters that %c, %s and %[ take. */
  datatype Class = Any | NonSpace | InTable(table: set<char>, reverse: bool)

  predicate Has(cl: Class, c: char) {
    match cl
    case Any => true
    case NonSpace => !IsSpace(c)
    case InTable(t, reverse) => (c in t) != reverse
  }

  function ClassRun(s: string, cl: Class, limit: nat): (n: nat)
    ensures n <= limit && n <= |s|
  {
    if limit > 0 && s != "" && Has(cl, s[0]) then 1 + ClassRun(s[1..], cl, limit - 1) else 0
  }

  // ------------------------------------------------------------------- States

  /** The format still to come, the characters consumed, the counters, the character that
      was read last, the assignments so far, and how often the end of the input was counted
      as a character: `nrchars` of the code is pos + over. */
  datatype State = State(f: string, pos: nat, done: nat, conv: nat, ic: Input, stores: seq<Store>, over: nat) {
    function Count(): nat {
      pos + over
    }
  }

  datatype Result = Result(ret: int, stores: seq<Store>, pos: nat)

  datatype Outcome = Go(st: State) | Stop(r: Result)

  /** src/_doscan.c:648: EOF if the input ended before the first conversion. */
  function Final(st: State): Result {
    Result(if st.conv > 0 || st.ic != EOF then st.done else -1, st.stores, st.pos)
  }

  /** Going on consumes no more than there is, and leaves a shorter format than `n`. */
  predicate Progress(o: Outcome, inp: string, n: nat) {
    o.Go? ==> o.st.pos <= |inp| && |o.st.f| < n
  }

  function Past(pos: nat, c: Input): nat {
    if c == EOF then pos else pos + 1
  }

  function SkipBlanks(inp: string, st: State): (r: State)
    requires st.pos <= |inp|
    ensures r.pos <= |inp| && |r.f| <= |st.f|
  {
    var pos := st.pos + SpaceRun(inp[st.pos..]);
    st.(f := st.f[SpaceRun(st.f)..], pos := pos, ic := At(inp, pos))
  }

  function FormatSkipped(f: string): (g: string)
    ensures |g| <= |f|
  {
    if IsSpace(CharAt(f, 0)) then f[SpaceRun(f)..] else f
  }

  /** src/_doscan.c:391-402: white space in the format passes over any in the input. */
  function Skipped(inp: string, st: State): (r: State)
    requires st.pos <= |inp|
    ensures st.pos <= r.pos <= |inp| && r.over == st.over && r.stores == st.stores
    ensures r.f == FormatSkipped(st.f)
  {
    if IsSpace(CharAt(st.f, 0)) then SkipBlanks(inp, st) else st
  }

  /** What `getc` returns, as an int. */
  function InputCode(c: Input): int {
    if c.Ch? then c.c as int else -1
  }

  /** A character of the format as an int: `char` is signed. */
  function FormatCode(c: char): int {
    if c as int < 128 then c as int else c as int - 256
  }

  /** A literal character, src/_doscan.c:405-420. `rest` is the format behind it. The two ints
      are compared, so 0xFF in the format equals the end of the input, which is counted. */
  function Literal(inp: string, st: State, c: char, rest: string): (o: Outcome)
    requires st.pos <= |inp|
    ensures Progress(o, inp, |rest| + 1)
  {
    var ic := At(inp, st.pos);
    var st1 := st.(pos := Past(st.pos, ic), ic := ic);
    if InputCode(ic) != FormatCode(c) then Stop(Final(st1))
    else Go(st1.(f := rest, over := if ic == EOF then st.over + 1 else st.over))
  }

  /** A conversion that has succeeded, src/_doscan.c:644-646. */
  function Converted(st: State, d: Directive, rest: string, pos: nat, ic: Input, store: Store): State {
    State(rest, pos, if d.noAssign then st.done else st.done + 1, st.conv + 1, ic, Assign(st.stores, d, store), st.over)
  }

  function Assign(stores: seq<Store>, d: Directive, store: Store): seq<Store> {
    if d.noAssign then stores else stores + [store]
  }

  predicate IsIntKind(kind: char) {
    match kind
    case 'p' => true
    case 'b' => true
    case 'd' => true
    case 'i' => true
    case 'o' => true
    case 'u' => true
    case 'x' => true
    case 'X' => true
    case _ => false
  }

  predicate IsSignedKind(kind: char) {
    kind == 'd' || kind == 'i'
  }

  /** How many characters an integer conversion may take: inp_buf has NUMLEN cells. */
  function IntWidth(d: Directive): nat {
    if !d.widthSpec || d.width > NUMLEN then NUMLEN else d.width
  }

  ghost function IntValue(d: Directive, text: string): uint32 {
    Narrow(d.size, Scanned(text, BaseFor(d.Kind()), IsSignedKind(d.Kind())))
  }

  /** An integer conversion that has collected `text`, the first character of which was `ic`. */
  ghost function IntOutcome(st: State, d: Directive, text: string, ic: Input): Outcome
    requires d.rest != ""
  {
    if text == "" || BareSign(text) then Stop(Result(st.done, st.stores, st.pos + |text|))
    else Go(Converted(st, d, d.rest[1..], st.pos + |text|, ic, IntStore(d.size, IntValue(d, text))))
  }

  /** An integer conversion whose first character stands at st.pos. */
  ghost function IntConversion(inp: string, st: State, d: Directive): (o: Outcome)
    requires st.pos < |inp| && IsIntKind(d.Kind())
    ensures Progress(o, inp, |d.rest|)
  {
    if IntWidth(d) == 0 then Stop(Result(st.done, st.stores, st.pos + 1))
    else
      var len := LengthOf(d.Kind(), inp[st.pos..], IntWidth(d));
      IntOutcome(st, d, inp[st.pos..st.pos + len], At(inp, st.pos))
  }

  lemma IntUnfold(inp: string, st: State, d: Directive, len: nat)
    requires st.pos < |inp| && IsIntKind(d.Kind()) && IntWidth(d) > 0
    requires len == LengthOf(d.Kind(), inp[st.pos..], IntWidth(d))
    ensures st.pos + len <= |inp| && d.rest != ""
    ensures IntConversion(inp, st, d) == IntOutcome(st, d, inp[st.pos..st.pos + len], At(inp, st.pos))
  {
    hide IntValue;
  }

  /** The text that %c, %s or %[ takes from st.pos on, `width` characters at most. */
  function FieldConversion(inp: string, st: State, d: Directive, cl: Class, width: nat, rest: string): (o: Outcome)
    requires st.pos < |inp|
    ensures Progress(o, inp, |rest| + 1)
  {
    var n := ClassRun(inp[st.pos..], cl, width);
    var text := inp[st.pos..st.pos + n];
    var ic := if n == width && n > 0 then At(inp, st.pos + n - 1) else At(inp, st.pos + n);
    Go(Converted(st, d, rest, st.pos + n, ic, if cl == Any then CharStore(text) else TextStore(text)))
  }

  function SetConversion(inp: string, st: State, d: Directive, width: nat): (o: Outcome)
    requires st.pos < |inp| && d.rest != ""
    ensures Progress(o, inp, |d.rest|)
  {
    var (reverse, table, rest) := ScansetOf(d.rest[1..]);
    var cl := InTable(table, reverse);
    if CharAt(rest, 0) == '\0' then Stop(Result(st.done, st.stores, st.pos + 1))
    else if !Has(cl, inp[st.pos]) then Stop(Result(st.done, st.stores, st.pos))
    else FieldConversion(inp, st, d, cl, width, rest[1..])
  }

  /** The switch of src/_doscan.c:449-643, at the first character of the conversion. */
  ghost function Conversion(inp: string, st: State, d: Directive): (o: Outcome)
    requires st.pos < |inp|
    ensures Progress(o, inp, |d.rest|)
  {
    var kind := d.Kind();
    if IsIntKind(kind) then IntConversion(inp, st, d)
    else if kind == 'c' || kind == 's' || kind == '[' then
      var width := if d.widthSpec then d.width else if kind == 'c' then 1 else 0xffff;
      if width == 0 then Stop(Result(st.done, st.stores, st.pos + 1))
      else if kind == 'c' then FieldConversion(inp, st, d, Any, width, d.rest[1..])
      else if kind == 's' then FieldConversion(inp, st, d, NonSpace, width, d.rest[1..])
      else SetConversion(inp, st, d, width)
    else Stop(Result(st.done, st.stores, st.pos + 1))
  }

  function CountConversion(st: State, d: Directive): Outcome
    requires d.rest != ""
  {
    var count := if d.size == Short then st.Count() % 0x10000 else st.Count();
    Go(st.(f := d.rest[1..], conv := st.conv + 1, stores := Assign(st.stores, d, CountStore(d.size, count))))
  }

  /** Where a conversion starts: white space is skipped, except for %c and %[. */
  function FirstOf(inp: string, pos: nat, kind: char): (p: nat)
    requires pos <= |inp|
    ensures pos <= p <= |inp|
  {
    if kind == 'c' || kind == '[' then pos else pos + SpaceRun(inp[pos..])
  }

  /** A directive, src/_doscan.c:437-448. */
  ghost function Directed(inp: string, st: State, d: Directive): (o: Outcome)
    requires st.pos <= |inp|
    ensures Progress(o, inp, |d.rest|)
  {
    var kind := d.Kind();
    if kind == 'n' then CountConversion(st, d)
    else
      var pos := FirstOf(inp, st.pos, kind);
      if pos == |inp| then Stop(Final(st.(pos := pos, ic := EOF)))
      else Conversion(inp, st.(pos := pos), d)
  }

  /** One turn once white space is behind, src/_doscan.c:403-647. */
  ghost function Item(inp: string, st: State): (o: Outcome)
    requires st.pos <= |inp|
    ensures Progress(o, inp, |st.f|)
  {
    if CharAt(st.f, 0) == '\0' then Stop(Final(st))
    else if st.f[0] != '%' then Literal(inp, st, st.f[0], st.f[1..])
    else if CharAt(st.f, 1) == '%' then Literal(inp, st, '%', st.f[2..])
    else Directed(inp, st, DirectiveOf(st.f[1..]))
  }

  /** One turn of the outer loop, src/_doscan.c:390-647. */
  ghost function Turn(inp: string, st: State): (o: Outcome)
    requires st.pos <= |inp|
    ensures Progress(o, inp, |st.f|)
  {
    Item(inp, Skipped(inp, st))
  }

  /** The whole loop. */
  ghost function Run(inp: string, st: State): Result
    requires st.pos <= |inp|
    decreases |st.f|
  {
    match Turn(inp, st)
    case Stop(r) => r
    case Go(st1) => Run(inp, st1)
  }

  function Initial(format: string): State {
    State(format, 0, 0, 0, EOF, [], 0)
  }

  /** `_doscan`, src/_doscan.c:368-649. */
  ghost function Scan(inp: string, format: string): Result {
    if CharAt(format, 0) == '\0' then Result(0, [], 0)
    else Run(inp, Initial(format))
  }

  // ------------------------------------------------- Room in the number buffer

  /** The number that an integer conversion collects at `pos` leaves a cell of inp_buf for its
      terminating NUL. */
  predicate NumberFits(inp: string, pos: nat, d: Directive)
    requires pos <= |inp|
  {
    IsIntKind(d.Kind()) && IntWidth(d) > 0 && pos < |inp| ==>
      LengthOf(d.Kind(), inp[pos..], IntWidth(d)) < NUMLEN
  }

  predicate ItemFits(inp: string, st: State)
    requires st.pos <= |inp|
  {
    CharAt(st.f, 0) == '%' && CharAt(st.f, 1) != '%' ==>
      var d := DirectiveOf(st.f[1..]);
      NumberFits(inp, FirstOf(inp, st.pos, d.Kind()), d)
  }

  predicate TurnFits(inp: string, st: State)
    requires st.pos <= |inp|
  {
    ItemFits(inp, Skipped(inp, st))
  }

  /** No integer conversion of the whole run fills inp_buf. */
  ghost predicate RunFits(inp: string, st: State)
    requires st.pos <= |inp|
    decreases |st.f|
  {
    TurnFits(inp, st) && (Turn(inp, st).Go? ==> RunFits(inp, Turn(inp, st).st))
  }

  ghost predicate ScanFits(inp: string, format: string) {
    CharAt(format, 0) == '\0' || RunFits(inp, Initial(format))
  }
}
