/** The text console of src/monitor.c: a 25 x 80 window that scrolls over an endless page. */
module Console {
  import opened Numerals
  import opened Printf
  import opened Vsprintf

  const COLUMNS := 80
  const ROWS := 25
  const CELLS := 2000
  /** A space in white on black, src/monitor.c:25-27. */
  const BLANK := 0x0F20

  type uint16 = x: int | 0 <= x < 0x1_0000

  // ---------------------------------------------------------- The endless page

  /** The cells that have been written, numbered row by row from the top of the page, and the
      cursor; all other cells are blank. Nothing here ever scrolls. */
  datatype Page = Page(cells: map<nat, uint16>, row: nat, col: nat)

  const EMPTY_PAGE := Page(map[], 0, 0)

  function Cell(p: Page, k: nat): uint16 {
    if k in p.cells then p.cells[k] else BLANK
  }

  /** Colours are 0 to 15; `char` is signed, so codes from 128 on are below ' '. */
  predicate IsColor(c: nat) {
    c < 16
  }

  function Attribute(back: nat, fore: nat): nat
    requires IsColor(back) && IsColor(fore)
  {
    (back * 16 + fore) * 256
  }

  /** The bit operations of src/monitor.c:63-64, 69 and 76 are this arithmetic. */
  lemma BitsAreArithmetic(back: bv16, fore: bv16, c: bv16, x: bv16)
    requires back < 16 && fore < 16 && c < 128 && x < 80
    ensures (((back << 4) | (fore & 0x0F)) << 8) | c == (back * 16 + fore) * 256 + c
    ensures (x + 8) & 0xFFF8 == (x + 8) / 8 * 8
  {}

  /** A tab goes to the next column that is a multiple of 8, from the last ones to a new row. */
  lemma TabStops(p: Page, back: nat, fore: nat)
    requires IsColor(back) && IsColor(fore) && p.col < COLUMNS
    ensures var q := Typed(p, '\t', back, fore);
            && q.cells == p.cells && q.col % 8 == 0
            && (if p.col < COLUMNS - 8 then q.row == p.row && p.col < q.col <= p.col + 8
                else q.row == p.row + 1 && q.col == 0)
  {}

  function Wrapped(p: Page): Page {
    if p.col >= COLUMNS then p.(row := p.row + 1, col := 0) else p
  }

  /** A character set on the page, or the cursor moved. */
  function Placed(p: Page, c: char, back: nat, fore: nat): Page
    requires IsColor(back) && IsColor(fore)
  {
    if c == '\U{0008}' && p.col > 0 then p.(col := p.col - 1)
    else if c == '\t' then p.(col := (p.col + 8) / 8 * 8)
    else if c == '\r' then p.(col := 0)
    else if c == '\n' then p.(row := p.row + 1, col := 0)
    else if ' ' <= c && c as int < 128 then
      p.(cells := p.cells[p.row * COLUMNS + p.col := c as int + Attribute(back, fore)], col := p.col + 1)
    else p
  }

  /** One character on the page. */
  function Typed(p: Page, c: char, back: nat, fore: nat): Page
    requires IsColor(back) && IsColor(fore)
  {
    Wrapped(Placed(p, c, back, fore))
  }

  function Write(p: Page, s: string, back: nat, fore: nat): Page
    requires IsColor(back) && IsColor(fore)
    decreases |s|
  {
    if s == "" then p else Write(Typed(p, s[0], back, fore), s[1..], back, fore)
  }

  /** The first row that the window shows: the cursor is kept in the last row at the latest. */
  function Top(p: Page): nat {
    if p.row < ROWS then 0 else p.row - (ROWS - 1)
  }

  /** Nothing is written below the cursor's row. */
  ghost predicate ValidPage(p: Page) {
    p.col < COLUMNS && forall k :: k in p.cells ==> k < (p.row + 1) * COLUMNS
  }

  lemma {:induction false} WriteAppend(p: Page, s: string, t: string, back: nat, fore: nat)
    requires IsColor(back) && IsColor(fore)
    ensures Write(p, s + t, back, fore) == Write(Write(p, s, back, fore), t, back, fore)
    decreases |s|
  {
    if s == "" {
      assert s + t == t;
    } else {
      assert (s + t)[1..] == s[1..] + t;
      WriteAppend(Typed(p, s[0], back, fore), s[1..], t, back, fore);
    }
  }

  lemma WriteOne(p: Page, c: char, back: nat, fore: nat)
    requires IsColor(back) && IsColor(fore)
    ensures Write(p, [c], back, fore) == Typed(p, c, back, fore)
  {
    assert [c][1..] == "";
  }

  /** Over every text, the cursor stays inside the columns, rows are only added, and nothing
      is written below the cursor's row, so that a row scrolled out is never touched again. */
  lemma {:induction false} WriteKeepsValid(p: Page, s: string, back: nat, fore: nat)
    requires IsColor(back) && IsColor(fore) && ValidPage(p)
    ensures var q := Write(p, s, back, fore);
            && ValidPage(q) && p.row <= q.row <= p.row + |s|
            && forall k: nat :: k < Top(p) * COLUMNS ==> Cell(q, k) == Cell(p, k)
    decreases |s|
  {
    if s != "" {
      WriteKeepsValid(Typed(p, s[0], back, fore), s[1..], back, fore);
    }
  }

  // ------------------------------------------------ What characters do to cells

  /** Characters that take a cell. */
  predicate IsPrintable(s: string) {
    forall i :: 0 <= i < |s| ==> ' ' <= s[i] && s[i] as int < 128
  }

  lemma OneFills(p: Page, c: char, back: nat, fore: nat)
    requires IsColor(back) && IsColor(fore) && p.col < COLUMNS && ' ' <= c && c as int < 128
    ensures var k, q := p.row * 80 + p.col, Typed(p, c, back, fore);
            && q.col < COLUMNS && q.row * 80 + q.col == k + 1
            && Cell(q, k) == c as int + back * 4096 + fore * 256
            && forall j: nat :: j != k ==> Cell(q, j) == Cell(p, j)
  {}

  /** From page `p` to page `q` the text has filled the cells from the cursor on, and no others,
      and the cursor stands behind it. */
  ghost predicate Fills(p: Page, q: Page, s: string, back: nat, fore: nat) {
    var k := p.row * 80 + p.col;
    && q.col < COLUMNS && q.row * 80 + q.col == k + |s|
    && (forall i :: 0 <= i < |s| ==> Cell(q, k + i) == s[i] as int + back * 4096 + fore * 256)
    && forall j: nat :: !(k <= j < k + |s|) ==> Cell(q, j) == Cell(p, j)
  }

  lemma FillsCons(p: Page, p1: Page, q: Page, s: string, back: nat, fore: nat)
    requires s != "" && p1.row * 80 + p1.col == p.row * 80 + p.col + 1
    requires Cell(p1, p.row * 80 + p.col) == s[0] as int + back * 4096 + fore * 256
    requires forall j: nat :: j != p.row * 80 + p.col ==> Cell(p1, j) == Cell(p, j)
    requires Fills(p1, q, s[1..], back, fore)
    ensures Fills(p, q, s, back, fore)
  {
    hide Cell;
    var k := p.row * 80 + p.col;
    forall i | 0 <= i < |s| ensures Cell(q, k + i) == s[i] as int + back * 4096 + fore * 256 {
      if i > 0 {
        assert s[i] == s[1..][i - 1] && k + i == k + 1 + (i - 1);
      }
    }
  }

  /** A text of printable characters fills the cells from the cursor on, one after the other
      across the ends of rows, with its codes and colours, and no others. */
  lemma {:induction false} WriteFills(p: Page, s: string, back: nat, fore: nat)
    requires IsColor(back) && IsColor(fore) && p.col < COLUMNS && IsPrintable(s)
    ensures Fills(p, Write(p, s, back, fore), s, back, fore)
    decreases |s|
  {
    if s != "" {
      hide Typed, Cell, Fills;
      OneFills(p, s[0], back, fore);
      WriteFills(Typed(p, s[0], back, fore), s[1..], back, fore);
      FillsCons(p, Typed(p, s[0], back, fore), Write(p, s, back, fore), s, back, fore);
    }
  }

  /** The other characters write nothing: newline goes to the start of the next row, carriage
      return to the start of the row, backspace one column back if there is one, and all but
      tab do nothing else. */
  lemma ControlsMove(p: Page, c: char, back: nat, fore: nat)
    requires IsColor(back) && IsColor(fore) && p.col < COLUMNS && !(' ' <= c && c as int < 128) && c != '\t'
    ensures Write(p, [c], back, fore)
         == Page(p.cells, if c == '\n' then p.row + 1 else p.row,
                 if c == '\n' || c == '\r' then 0
                 else if c as int == 8 && p.col > 0 then p.col - 1 else p.col)
  {
    WriteOne(p, c, back, fore);
  }

  /** By how many rows the window moves up when the cursor gets to its cell number `n`. */
  function MovedUp(n: nat): nat {
    if n / 80 < 25 then 0 else n / 80 - 24
  }

  /** What stands in cell `j`, counted from the top of the window as it was before, once the
      text is written from cell `k` on. */
  function ShownCell(before: seq<uint16>, k: nat, s: string, back: nat, fore: nat, j: nat): int
    requires |before| == CELLS
  {
    if k <= j < k + |s| then s[j - k] as int + back * 4096 + fore * 256
    else if j < CELLS then before[j] else 0x0F20
  }

  /** What a text of printable characters makes of the 2000 cells of a window with the cursor
      at (x, y): the text from the cursor on, all of it moved up by as many rows as it takes to
      keep the cursor in the last row, and blanks below. */
  predicate TextShown(before: seq<uint16>, x: nat, y: nat, after: seq<uint16>, x1: nat, y1: nat,
                      s: string, back: nat, fore: nat)
    requires |before| == |after| == CELLS
  {
    var k := y * 80 + x;
    var up := MovedUp(k + |s|);
    && y1 * 80 + x1 == k + |s| - up * 80
    && forall i :: 0 <= i < CELLS ==> after[i] == ShownCell(before, k, s, back, fore, i + up * 80)
  }

  /** The window `w` shows the page. */
  ghost predicate IsWindow(w: seq<uint16>, p: Page) {
    |w| == CELLS && forall i :: 0 <= i < CELLS ==> w[i] == Cell(p, Top(p) * COLUMNS + i)
  }

  lemma BelowIsBlank(p: Page, i: nat)
    requires ValidPage(p) && i >= CELLS
    ensures Cell(p, Top(p) * COLUMNS + i) == 0x0F20
  {}

  lemma TopMoves(p: Page, x: nat, y: nat, q: Page, n: nat)
    requires x == p.col < COLUMNS && p.row == Top(p) + y && y < ROWS && q.col < COLUMNS
    requires q.row * 80 + q.col == p.row * 80 + p.col + n
    ensures var k := y * 80 + x;
            var up := MovedUp(k + n);
            && Top(q) == Top(p) + up && (q.row - Top(q)) * 80 + q.col == k + n - up * 80
  {
    var k := y * 80 + x;
    assert q.row - Top(p) == (k + n) / 80;
  }

  /** Cell number `j` of the window, before it moves. */
  lemma CellAfterText(p: Page, k: nat, top: nat, s: string, back: nat, fore: nat, j: nat, at: nat)
    requires IsColor(back) && IsColor(fore) && IsPrintable(s) && p.col < COLUMNS
    requires p.row * 80 + p.col == top * 80 + k && at == top * 80 + j
    ensures Cell(Write(p, s, back, fore), at)
         == if k <= j < k + |s| then s[j - k] as int + back * 4096 + fore * 256 else Cell(p, at)
  {
    hide Write, Cell;
    WriteFills(p, s, back, fore);
    if k <= j < k + |s| {
      assert at == p.row * 80 + p.col + (j - k);
    }
  }

  lemma CellBefore(before: seq<uint16>, p: Page, top: nat, j: nat, at: nat)
    requires ValidPage(p) && IsWindow(before, p) && top == Top(p) && at == top * 80 + j
    ensures Cell(p, at) == if j < CELLS then before[j] else 0x0F20
  {
    hide Cell, Top, ValidPage;
    if j >= CELLS {
      BelowIsBlank(p, j);
    }
  }

  lemma CellNow(after: seq<uint16>, q: Page, top: nat, up: nat, i: nat, at: nat)
    requires IsWindow(after, q) && Top(q) == top + up && i < CELLS && at == top * 80 + (i + up * 80)
    ensures after[i] == Cell(q, at)
  {
    hide Cell, Top;
    assert at == (top + up) * COLUMNS + i;
  }

  lemma OneCell(before: seq<uint16>, p: Page, k: nat, after: seq<uint16>, q: Page, s: string, back: nat, fore: nat,
                top: nat, up: nat, i: nat, j: nat)
    requires IsColor(back) && IsColor(fore) && IsPrintable(s) && q == Write(p, s, back, fore)
    requires ValidPage(p) && IsWindow(before, p) && IsWindow(after, q)
    requires top == Top(p) && Top(q) == top + up && p.row * 80 + p.col == top * 80 + k
    requires i < CELLS && j == i + up * 80
    ensures |before| == |after| == CELLS && after[i] == ShownCell(before, k, s, back, fore, j)
  {
    WindowSizes(before, p, after, q);
    hide Write, Cell, Top, IsWindow, IsPrintable, IsColor;
    CellAfterText(p, k, top, s, back, fore, j, top * 80 + j);
    CellBefore(before, p, top, j, top * 80 + j);
    CellNow(after, q, top, up, i, top * 80 + j);
  }

  lemma CursorMoves(p: Page, x: nat, y: nat, q: Page, s: string, back: nat, fore: nat)
    requires IsColor(back) && IsColor(fore) && IsPrintable(s) && q == Write(p, s, back, fore)
    requires x == p.col < COLUMNS && p.row == Top(p) + y && y < ROWS
    ensures Top(q) == Top(p) + MovedUp(y * 80 + x + |s|)
    ensures (q.row - Top(q)) * 80 + q.col == y * 80 + x + |s| - MovedUp(y * 80 + x + |s|) * 80
  {
    hide Write, Cell, Top, IsPrintable, IsColor;
    WriteFills(p, s, back, fore);
    TopMoves(p, x, y, q, |s|);
  }

  lemma TextIsShown(before: seq<uint16>, p: Page, x: nat, y: nat, after: seq<uint16>, x1: nat, y1: nat, q: Page,
                    s: string, back: nat, fore: nat)
    requires IsColor(back) && IsColor(fore) && IsPrintable(s) && q == Write(p, s, back, fore)
    requires ValidPage(p) && x == p.col < COLUMNS && p.row == Top(p) + y && y < ROWS && IsWindow(before, p)
    requires q.col == x1 && q.row == Top(q) + y1 && IsWindow(after, q)
    ensures TextShown(before, x, y, after, x1, y1, s, back, fore)
  {
    hide *;
    CursorMoves(p, x, y, q, s, back, fore);
    var k := y * 80 + x;
    AllCells(before, p, k, after, q, s, back, fore, MovedUp(k + |s|));
    TextShownFrom(before, x, y, after, x1, y1, s, back, fore, k, MovedUp(k + |s|));
  }

  lemma TextShownFrom(before: seq<uint16>, x: nat, y: nat, after: seq<uint16>, x1: nat, y1: nat,
                      s: string, back: nat, fore: nat, k: nat, up: nat)
    requires |before| == |after| == CELLS && k == y * 80 + x && up == MovedUp(k + |s|)
    requires y1 * 80 + x1 == k + |s| - up * 80
    requires forall i :: 0 <= i < CELLS ==> after[i] == ShownCell(before, k, s, back, fore, i + up * 80)
    ensures TextShown(before, x, y, after, x1, y1, s, back, fore)
  {
    hide MovedUp, ShownCell;
  }

  lemma AllCells(before: seq<uint16>, p: Page, k: nat, after: seq<uint16>, q: Page, s: string, back: nat, fore: nat,
                 up: nat)
    requires IsColor(back) && IsColor(fore) && IsPrintable(s) && q == Write(p, s, back, fore)
    requires ValidPage(p) && IsWindow(before, p) && IsWindow(after, q)
    requires Top(q) == Top(p) + up && p.row * 80 + p.col == Top(p) * 80 + k
    ensures |before| == |after| == CELLS
    ensures forall i :: 0 <= i < CELLS ==> after[i] == ShownCell(before, k, s, back, fore, i + up * 80)
  {
    WindowSizes(before, p, after, q);
    hide Write, Cell, Top, ValidPage, IsWindow, IsPrintable, IsColor, ShownCell;
    forall i | 0 <= i < CELLS ensures after[i] == ShownCell(before, k, s, back, fore, i + up * 80) {
      OneCell(before, p, k, after, q, s, back, fore, Top(p), up, i, i + up * 80);
    }
  }

  lemma WindowSizes(before: seq<uint16>, p: Page, after: seq<uint16>, q: Page)
    requires IsWindow(before, p) && IsWindow(after, q)
    ensures |before| == |after| == CELLS
  {}

  // -------------------------------------------------------------- The window

  class Monitor {
    const video_memory: array<uint16>
    var cursor_x: nat
    var cursor_y: nat
    ghost var page: Page

    ghost predicate Shows(top: nat)
      requires video_memory.Length == CELLS
      reads this, video_memory
    {
      forall i :: 0 <= i < CELLS ==> video_memory[i] == Cell(page, top * COLUMNS + i)
    }

    /** The cursor is inside, and the window shows its part of the page. */
    ghost predicate Valid()
      reads this, video_memory
    {
      && video_memory.Length == CELLS
      && cursor_x < COLUMNS && cursor_y < ROWS
      && ValidPage(page) && page.col == cursor_x && page.row == Top(page) + cursor_y
      && Shows(Top(page))
    }

    constructor ()
      ensures video_memory.Length == CELLS && fresh(video_memory)
    {
      video_memory := new uint16[CELLS];
      cursor_x, cursor_y, page := 0, 0, EMPTY_PAGE;
    }

    /** `monitor_clear`, src/monitor.c:43-56. */
    method Clear()
      requires video_memory.Length == CELLS
      modifies this, video_memory
      ensures Valid() && page == EMPTY_PAGE
    {
      for i := 0 to CELLS
        invariant forall k :: 0 <= k < i ==> video_memory[k] == BLANK
      {
        video_memory[i] := BLANK;
      }
      cursor_x, cursor_y, page := 0, 0, EMPTY_PAGE;
    }

    /** Between the character and the scroll the window still shows the rows from `top` on. */
    ghost predicate Pending(top: nat)
      reads this, video_memory
    {
      && video_memory.Length == CELLS && Shows(top)
      && page.col == cursor_x && page.row == top + cursor_y && cursor_y <= ROWS
      && (top == 0 || cursor_y >= ROWS - 1)
      && forall k :: k in page.cells ==> k < (page.row + 1) * COLUMNS && k < (top + ROWS) * COLUMNS
    }

    /** `screen_scroll`, src/monitor.c:23-41. */
    method ScreenScroll(ghost top: nat)
      requires Pending(top) && cursor_x < COLUMNS
      modifies this`cursor_y, video_memory
      ensures Valid()
    {
      if cursor_y >= ROWS {
        for i := 0 to CELLS - COLUMNS
          invariant forall k :: 0 <= k < i ==> video_memory[k] == Cell(page, (top + 1) * COLUMNS + k)
          invariant forall k :: i <= k < CELLS ==> video_memory[k] == Cell(page, top * COLUMNS + k)
        {
          video_memory[i] := video_memory[i + COLUMNS];
        }
        for i := CELLS - COLUMNS to CELLS
          invariant forall k :: 0 <= k < CELLS - COLUMNS ==> video_memory[k] == Cell(page, (top + 1) * COLUMNS + k)
          invariant forall k :: CELLS - COLUMNS <= k < i ==> video_memory[k] == BLANK
        {
          video_memory[i] := BLANK;
        }
        cursor_y := ROWS - 1;
      }
    }

    /** src/monitor.c:66-78. */
    method Place(c: char, back: nat, fore: nat)
      requires Valid() && IsColor(back) && IsColor(fore)
      modifies this, video_memory
      ensures page == Placed(old(page), c, back, fore) && Pending(Top(old(page)))
      ensures cursor_x <= COLUMNS && (cursor_x == COLUMNS ==> cursor_y < ROWS)
    {
      if c == '\U{0008}' && cursor_x > 0 {
        cursor_x := cursor_x - 1;
        page := page.(col := cursor_x);
      } else if c == '\t' {
        cursor_x := (cursor_x + 8) / 8 * 8;
        page := page.(col := cursor_x);
      } else if c == '\r' {
        cursor_x := 0;
        page := page.(col := cursor_x);
      } else if c == '\n' {
        cursor_x := 0;
        cursor_y := cursor_y + 1;
        page := page.(row := page.row + 1, col := 0);
      } else if ' ' <= c && c as int < 128 {
        PutCell(c as int + Attribute(back, fore));
        cursor_x := cursor_x + 1;
        page := page.(col := cursor_x);
      }
    }

    /** `monitor_putc_color`, src/monitor.c:58-88. */
    method PutcColor(c: char, back: nat, fore: nat)
      requires Valid() && IsColor(back) && IsColor(fore)
      modifies this, video_memory
      ensures Valid() && page == Typed(old(page), c, back, fore)
    {
      Place(c, back, fore);
      if cursor_x >= COLUMNS {
        cursor_x := 0;
        cursor_y := cursor_y + 1;
        page := page.(row := page.row + 1, col := 0);
      }
      ScreenScroll(Top(old(page)));
    }

    /** `video_memory[cursor_y*80 + cursor_x] = c | attribute;` */
    method PutCell(w: uint16)
      requires Valid()
      modifies this`page, video_memory
      ensures Valid() && page == old(page).(cells := old(page).cells[old(page).row * COLUMNS + old(page).col := w])
    {
      video_memory[cursor_y * COLUMNS + cursor_x] := w;
      page := page.(cells := page.cells[page.row * COLUMNS + page.col := w]);
    }

    /** `monitor_write_color`, src/monitor.c:97-102. */
    method WriteColor(s: string, back: nat, fore: nat)
      requires Valid() && IsColor(back) && IsColor(fore)
      modifies this, video_memory
      ensures Valid() && page == Write(old(page), s, back, fore)
      ensures IsPrintable(s) ==>
                TextShown(old(video_memory[..]), old(cursor_x), old(cursor_y),
                          video_memory[..], cursor_x, cursor_y, s, back, fore)
    {
      ghost var before, p, x, y := video_memory[..], page, cursor_x, cursor_y;
      hide TextShown;
      var i := 0;
      while i < |s|
        invariant 0 <= i <= |s| && Valid()
        invariant Write(page, s[i..], back, fore) == Write(old(page), s, back, fore)
      {
        assert s[i..][1..] == s[i + 1..];
        PutcColor(s[i], back, fore);
        i := i + 1;
      }
      if IsPrintable(s) {
        TextIsShown(before, p, x, y, video_memory[..], cursor_x, cursor_y, page, s, back, fore);
      }
    }

    /** The digits of `n`, least significant first, src/monitor.c:133-140. */
    method DecDigits(n: uint32, c: array<char>) returns (i: nat)
      requires c.Length == 32 && n > 0
      modifies c
      ensures i == |Numeral(n, 10, false)| < 32
      ensures forall k :: 0 <= k < i ==> c[k] == Numeral(n, 10, false)[i - 1 - k]
    {
      ghost var text := Numeral(n, 10, false);
      DecimalIsShort(n);
      var acc: nat := n;
      ghost var tail := "";
      i := 0;
      while acc > 0
        invariant text == (if acc == 0 then "" else Numeral(acc, 10, false)) + tail
        invariant i == |tail| && (acc > 0 ==> i < |text|)
        invariant forall k :: 0 <= k < i ==> c[k] == tail[i - 1 - k]
        decreases acc
      {
        NumeralStep(acc, 10, false, tail, acc / 10, acc % 10);
        c[i] := '0' + (acc % 10) as char;
        tail := [c[i]] + tail;
        acc, i := acc / 10, i + 1;
      }
    }

    /** `monitor_write_dec`, src/monitor.c:126-152: shows the decimal numeral. */
    method WriteDec(n: uint32, back: nat, fore: nat)
      requires Valid() && IsColor(back) && IsColor(fore)
      modifies this, video_memory
      ensures Valid() && page == Write(old(page), Numeral(n, 10, false), back, fore)
    {
      if n == 0 {
        WriteOne(page, '0', back, fore);
        PutcColor('0', back, fore);
        assert Numeral(0, 10, false) == ['0'];
        return;
      }
      var c := new char[32];
      var count := DecDigits(n, c);
      var c2 := Reversed(c, count, Numeral(n, 10, false));
      WriteColor(c2, back, fore);
    }

    /** src/monitor.c:143-149. */
    method Reversed(c: array<char>, count: nat, ghost text: string) returns (s: string)
      requires c.Length == 32 && 0 < count < 32 && count == |text|
      requires forall k :: 0 <= k < count ==> c[k] == text[count - 1 - k]
      ensures s == text
    {
      var c2 := new char[32];
      var i, j := count - 1, 0;
      while i >= 0
        invariant -1 <= i < count && j == count - 1 - i
        invariant forall k :: i < k < count ==> c2[k] == text[k]
      {
        c2[i] := c[j];
        i, j := i - 1, j + 1;
      }
      s := c2[..count];
    }

    /** One digit of `monitor_write_hex`, src/monitor.c:117-121. */
    method PutHexDigit(tmp: nat, back: nat, fore: nat, ghost start: Page, ghost shown: string)
      requires Valid() && IsColor(back) && IsColor(fore) && tmp < 16
      requires page == Write(start, shown, back, fore)
      modifies this, video_memory
      ensures Valid() && page == Write(start, shown + [DigitChar(tmp, true)], back, fore)
    {
      var digit := if tmp >= 10 then 'a' + (tmp - 10) as char else '0' + tmp as char;
      WriteAppend(start, shown, [digit], back, fore);
      WriteOne(page, digit, back, fore);
      PutcColor(digit, back, fore);
    }

    /** One turn of the loop of `monitor_write_hex`: leading zeros are passed over. */
    method HexTurn(n: uint32, i: nat, zeroes: bool, back: nat, fore: nat, ghost start: Page, ghost above: nat)
      returns (noZeroes: bool, ghost now: nat)
      requires Valid() && IsColor(back) && IsColor(fore)
      requires above == ShiftRight(n, i + 4) && (zeroes <==> above == 0)
      requires page == Write(start, "0x" + HexDigits(above), back, fore)
      modifies this, video_memory
      ensures Valid() && now == ShiftRight(n, i) && (noZeroes <==> now == 0)
      ensures page == Write(start, "0x" + HexDigits(now), back, fore)
    {
      var tmp := ShiftRight(n, i) % 16;
      now := HexStep(n, i, above, tmp, "0x");
      noZeroes := zeroes;
      if tmp == 0 && noZeroes {
        return;
      }
      noZeroes := false;
      PutHexDigit(tmp, back, fore, start, "0x" + HexDigits(above));
    }

    /** `monitor_write_hex`, src/monitor.c:104-124: shows 0x and the digits of `n` from the
        first one that is not zero. */
    method WriteHex(n: uint32, back: nat, fore: nat)
      requires Valid() && IsColor(back) && IsColor(fore)
      modifies this, video_memory
      ensures Valid() && page == Write(old(page), "0x" + HexDigits(n), back, fore)
    {
      ghost var start, above, k := page, 0, 7;
      ConcatEmpty("0x");
      NoDigits();
      NothingAbove(n);
      ShiftByNothing(n);
      hide ShiftRight, Write, HexDigits, ValidPage, Top;
      var noZeroes := true;
      WriteColor("0x", back, fore);
      var i := 28;
      while i >= 0
        invariant -1 <= k <= 7 && i == 4 * k && Valid()
        invariant above == ShiftRight(n, i + 4) && (noZeroes <==> above == 0)
        invariant page == Write(start, "0x" + HexDigits(above), back, fore)
        decreases i + 4
      {
        noZeroes, above := HexTurn(n, i, noZeroes, back, fore, start, above);
        i, k := i - 4, k - 1;
      }
    }
  }

  lemma DecimalIsShort(n: uint32)
    ensures |Numeral(n, 10, false)| < 32
  {
    if n >= 10 {
      NumeralLength(n / 10, 10, false, 30) by {
        Pow2Of32();
        assert Pow2(32) == 4 * Pow2(30);
      }
    }
  }

  /** The hexadecimal digits without leading zeros: none at all for zero. */
  function HexDigits(n: nat): string {
    if n == 0 then "" else Numeral(n, 16, true)
  }

  /** `n >> k` for an unsigned word. */
  function ShiftRight(n: nat, k: nat): nat {
    if k == 0 then n else ShiftRight(n, k - 1) / 2
  }

  lemma ShiftByNothing(n: nat)
    ensures ShiftRight(n, 0) == n
  {}

  lemma NoDigits()
    ensures HexDigits(0) == ""
  {}

  lemma FourBits(n: nat, k: nat)
    ensures ShiftRight(n, k + 4) == ShiftRight(n, k) / 16
  {
    assert ShiftRight(n, k + 4) == ShiftRight(n, k + 3) / 2 && ShiftRight(n, k + 3) == ShiftRight(n, k + 2) / 2;
    assert ShiftRight(n, k + 2) == ShiftRight(n, k + 1) / 2;
  }

  lemma NothingAbove(n: uint32)
    ensures ShiftRight(n, 32) == 0
  {
    FourBits(n, 0);
    FourBits(n, 4);
    FourBits(n, 8);
    FourBits(n, 12);
    FourBits(n, 16);
    FourBits(n, 20);
    FourBits(n, 24);
    FourBits(n, 28);
  }

  /** Shifting by four bits less adds one digit to those shown. */
  lemma HexStep(n: uint32, i: nat, above: nat, tmp: nat, text: string) returns (now: nat)
    requires above == ShiftRight(n, i + 4) && tmp == ShiftRight(n, i) % 16
    ensures now == ShiftRight(n, i) && (now == 0 <==> tmp == 0 && above == 0)
    ensures now == 0 ==> HexDigits(now) == ""
    ensures now != 0 ==> text + HexDigits(now) == text + HexDigits(above) + [DigitChar(tmp, true)]
  {
    now := ShiftRight(n, i);
    FourBits(n, i);
    HexUnfolds(now, above, tmp);
    if now != 0 {
      ConcatAssoc(text, HexDigits(above), [DigitChar(tmp, true)]);
    }
  }

  lemma HexUnfolds(m: nat, q: nat, d: nat)
    requires q == m / 16 && d == m % 16
    ensures m == 0 <==> d == 0 && q == 0
    ensures m != 0 ==> HexDigits(m) == HexDigits(q) + [DigitChar(d, true)]
  {
    if 0 < m < 16 {
      ConcatEmpty([DigitChar(m, true)]);
    } else if m >= 16 {
      NumeralUnfolds(m, 16, true);
    }
  }

  // ------------------------------------------------------ Two printers agree

  function HexFlags(): Flags {
    NO_FLAGS.(special := true, small := true)
  }

  /** `monitor_write_dec` shows what %u formats, for every number. */
  lemma DecAgrees(n: uint32)
    ensures Numeral(n, 10, false) == Format("%u", [Word(n)], 0).text
  {
    var t := Numeral(n, 10, false);
    PlainText(n, 10, NO_FLAGS);
    ConcatEmpty(t);
    assert "%u"[1..] == "u";
    SpecOfU([Word(n)]);
    OneConversion("%u", Word(n), Spec(NO_FLAGS, -1, -1, 'u', "", [Word(n)]));
  }

  /** `monitor_write_hex` shows what %#x formats, exactly when the number is not zero. */
  lemma HexAgreesIff(n: uint32)
    ensures "0x" + HexDigits(n) == Format("%#x", [Word(n)], 0).text <==> n != 0
  {
    var t := "0x" + Numeral(n, 16, true);
    PlainText(n, 16, HexFlags());
    assert "%#x"[1..] == "#x";
    SpecOfSharpX([Word(n)]);
    OneConversion("%#x", Word(n), Spec(NO_FLAGS.(special := true), -1, -1, 'x', "", [Word(n)]));
    ConcatEmpty(t);
    assert |t| > 2;
  }

  lemma SpecOfU(args: seq<Arg>)
    ensures SpecOf("u", args) == Spec(NO_FLAGS, -1, -1, 'u', "", args)
  {
    assert "u"[1..] == "";
  }

  lemma SpecOfSharpX(args: seq<Arg>)
    ensures SpecOf("#x", args) == Spec(NO_FLAGS.(special := true), -1, -1, 'x', "", args)
  {
    assert "#x"[1..] == "x" && "x"[1..] == "";
    assert FlagsOf("x", NO_FLAGS.(special := true)) == ("x", NO_FLAGS.(special := true));
  }
}
