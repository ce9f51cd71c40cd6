/** What the keys of src/keyboard.c type: the legends of a US keyboard, over every history of
    scan codes. */
module Legends {
  import opened Keyboard

  /** The keys of the four rows that type a character, by scan code. */
  predicate IsRowKey(code: nat) {
    0x02 <= code <= 0x0D || 0x10 <= code <= 0x1B || 0x1E <= code <= 0x29 || 0x2B <= code <= 0x35
  }

  /** The legends, without and with shift. */
  function Lower(code: nat): char
    requires IsRowKey(code)
  {
    if code <= 0x0D then "1234567890-="[code - 0x02]
    else if code <= 0x1B then "qwertyuiop[]"[code - 0x10]
    else if code <= 0x29 then "asdfghjkl;'`"[code - 0x1E]
    else "\\zxcvbnm,./"[code - 0x2B]
  }

  function Upper(code: nat): char
    requires IsRowKey(code)
  {
    if code <= 0x0D then "!@#$%^&*()_+"[code - 0x02]
    else if code <= 0x1B then "QWERTYUIOP{}"[code - 0x10]
    else if code <= 0x29 then "ASDFGHJKL:\"~"[code - 0x1E]
    else "|ZXCVBNM<>?"[code - 0x2B]
  }

  lemma NumberRowLower(code: nat)
    requires 0x02 <= code <= 0x0D
    ensures KeyMap(code) as char == Lower(code) && KeyMap(code) != 0
  {}

  lemma NumberRowUpper(code: nat)
    requires 0x02 <= code <= 0x0D
    ensures ShiftMap(code) as char == Upper(code) && ShiftMap(code) != 0
  {}

  lemma TopRowLower(code: nat)
    requires 0x10 <= code <= 0x1B
    ensures KeyMap(code) as char == Lower(code) && KeyMap(code) != 0
  {}

  lemma TopRowUpper(code: nat)
    requires 0x10 <= code <= 0x1B
    ensures ShiftMap(code) as char == Upper(code) && ShiftMap(code) != 0
  {}

  lemma MiddleRowLower(code: nat)
    requires 0x1E <= code <= 0x29
    ensures KeyMap(code) as char == Lower(code) && KeyMap(code) != 0
  {}

  lemma MiddleRowUpper(code: nat)
    requires 0x1E <= code <= 0x29
    ensures ShiftMap(code) as char == Upper(code) && ShiftMap(code) != 0
  {}

  lemma BottomRowLower(code: nat)
    requires 0x2B <= code <= 0x35
    ensures KeyMap(code) as char == Lower(code) && KeyMap(code) != 0
  {}

  lemma BottomRowUpper(code: nat)
    requires 0x2B <= code <= 0x35
    ensures ShiftMap(code) as char == Upper(code) && ShiftMap(code) != 0
  {}

  lemma TablesAreLegends(code: nat)
    requires IsRowKey(code)
    ensures KeyMap(code) as char == Lower(code) && ShiftMap(code) as char == Upper(code)
    ensures KeyMap(code) != 0 && ShiftMap(code) != 0
  {
    hide KeyMap, ShiftMap, Lower, Upper;
    if code <= 0x0D {
      NumberRowLower(code);
      NumberRowUpper(code);
    } else if code <= 0x1B {
      TopRowLower(code);
      TopRowUpper(code);
    } else if code <= 0x29 {
      MiddleRowLower(code);
      MiddleRowUpper(code);
    } else {
      BottomRowLower(code);
      BottomRowUpper(code);
    }
  }

  predicate IsLetter(ch: bv8) {
    0x41 <= ch <= 0x5A || 0x61 <= ch <= 0x7A
  }

  /** Both characters of a key that is no letter are none. */
  lemma NoLetterBelow(code: nat)
    requires IsRowKey(code) && !IsLetterKey(code)
    ensures !IsLetter(KeyMap(code))
  {}

  lemma NoLetterAbove(code: nat)
    requires IsRowKey(code) && !IsLetterKey(code)
    ensures !IsLetter(ShiftMap(code))
  {}

  lemma KeyEmits(l: Layout, k: Keys, code: nat)
    requires l.Fits() && IsRowKey(code) && l.plain[code] != 0 && l.shift[code] != 0 && k.mode & 0x3C == 0
    requires k.mode & 0x40 == 0 || (!IsLetter(l.plain[code]) && !IsLetter(l.shift[code]))
    ensures Emitted(l, k, code)
         == if code == 0x35 && k.e0 == 1 then []
            else [if k.mode & 0x3 != 0 then l.shift[code] else l.plain[code]]
  {}

  lemma PrefixIs(h: seq<nat>)
    ensures After(h).e0 == 1 <==> h != [] && h[|h| - 1] == 0xE0
  {}

  /** Without ctrl and alt, over every history, each key of the four rows types the one of its
      two legends that shift selects; caps lock matters to letters alone, and the slash of the
      keypad, with its prefix 0xE0, types nothing. */
  lemma KeysTypeLegends(h: seq<nat>, code: nat, x: bv8, y: bv8)
    requires IsRowKey(code) && Unmarked(h) && (IsLetterKey(code) ==> !OddPresses(h))
    ensures var out := Emitted(KernelLayout(x, y), After(h), code);
            if code == 0x35 && h != [] && h[|h| - 1] == 0xE0 then out == []
            else |out| == 1 && out[0] as char == if Shifted(h) then Upper(code) else Lower(code)
  {
    hide ShiftMap, KeyMap, AltMap, Emitted, After, Lower, Upper;
    ModeReflectsHistory(h);
    PrefixIs(h);
    MaskBits(After(h).mode);
    TablesAreLegends(code);
    if !IsLetterKey(code) {
      NoLetterBelow(code);
      NoLetterAbove(code);
    }
    KeyEmits(KernelLayout(x, y), After(h), code);
  }

  /** The keys of the digits and signs below '@'. */
  function KeyOfSign(c: char): nat
  {
    match c
    case '!' | '1' => 0x02
    case '2' => 0x03
    case '#' | '3' => 0x04
    case '$' | '4' => 0x05
    case '%' | '5' => 0x06
    case '6' => 0x07
    case '&' | '7' => 0x08
    case '*' | '8' => 0x09
    case '(' | '9' => 0x0A
    case ')' | '0' => 0x0B
    case '-' => 0x0C
    case '+' | '=' => 0x0D
    case ':' | ';' => 0x27
    case '\"' | '\'' => 0x28
    case ',' | '<' => 0x33
    case '.' | '>' => 0x34
    case _ => 0x35
  }

  /** The keys of the lower-case letters. */
  function KeyOfLetter(c: char): nat
  {
    match c
    case 'q' => 0x10
    case 'w' => 0x11
    case 'e' => 0x12
    case 'r' => 0x13
    case 't' => 0x14
    case 'y' => 0x15
    case 'u' => 0x16
    case 'i' => 0x17
    case 'o' => 0x18
    case 'p' => 0x19
    case 'a' => 0x1E
    case 's' => 0x1F
    case 'd' => 0x20
    case 'f' => 0x21
    case 'g' => 0x22
    case 'h' => 0x23
    case 'j' => 0x24
    case 'k' => 0x25
    case 'l' => 0x26
    case 'z' => 0x2C
    case 'x' => 0x2D
    case 'c' => 0x2E
    case 'v' => 0x2F
    case 'b' => 0x30
    case 'n' => 0x31
    case _ => 0x32
  }

  /** The keys of the remaining signs. */
  function KeyOfBracket(c: char): nat
  {
    match c
    case '@' => 0x03
    case '^' => 0x07
    case '_' => 0x0C
    case '[' | '{' => 0x1A
    case ']' | '}' => 0x1B
    case '`' | '~' => 0x29
    case _ => 0x2B
  }

  ghost predicate IsLegendOf(c: char, code: nat) {
    IsRowKey(code) && (c == Lower(code) || c == Upper(code))
  }

  lemma FirstSigns(c: char)
    requires '!' <= c <= '0'
    ensures IsLegendOf(c, KeyOfSign(c))
  {}

  lemma OtherSigns(c: char)
    requires '1' <= c <= '?'
    ensures IsLegendOf(c, KeyOfSign(c))
  {}

  lemma Brackets(c: char)
    requires c == '@' || '[' <= c <= '`' || '{' <= c <= '~'
    ensures IsLegendOf(c, KeyOfBracket(c))
  {}

  lemma FirstLetters(c: char)
    requires 'a' <= c <= 'm'
    ensures IsRowKey(KeyOfLetter(c)) && c == Lower(KeyOfLetter(c)) && Upper(KeyOfLetter(c)) == c - ' '
  {}

  lemma OtherLetters(c: char)
    requires 'n' <= c <= 'z'
    ensures IsRowKey(KeyOfLetter(c)) && c == Lower(KeyOfLetter(c)) && Upper(KeyOfLetter(c)) == c - ' '
  {}

  /** Every printable ASCII character but the space is a legend of some key, so that it is typed
      with or without shift. */
  lemma EveryCharacterHasAKey(c: char) returns (code: nat)
    requires '!' <= c <= '~'
    ensures IsLegendOf(c, code)
  {
    hide KeyOfSign, KeyOfLetter, KeyOfBracket, Lower, Upper;
    if c <= '?' {
      code := KeyOfSign(c);
      if c <= '0' {
        FirstSigns(c);
      } else {
        OtherSigns(c);
      }
    } else if 'A' <= c <= 'Z' || 'a' <= c <= 'z' {
      var d := if c <= 'Z' then c + ' ' else c;
      code := KeyOfLetter(d);
      if d <= 'm' {
        FirstLetters(d);
      } else {
        OtherLetters(d);
      }
    } else {
      code := KeyOfBracket(c);
      Brackets(c);
    }
  }

  /** The characters that the right alt key selects, NUL for none. */
  function AltLegend(code: nat): char
    requires 0x01 <= code <= 0x34
  {
    match code
    case 0x03 => '@'
    case 0x05 => '$'
    case 0x08 => '{'
    case 0x09 => '['
    case 0x0A => ']'
    case 0x0B => '}'
    case 0x0C => '\\'
    case 0x1B => '~'
    case 0x1C => '\n'
    case _ => '\0'
  }

  lemma AltTable(code: nat)
    requires 0x01 <= code <= 0x34
    ensures AltMap(code) as char == AltLegend(code) && (AltMap(code) == 0 <==> AltLegend(code) == '\0')
    ensures !IsLetter(AltMap(code))
  {}

  lemma AltEmits(l: Layout, k: Keys, code: nat)
    requires l.Fits() && 0x01 <= code <= 0x34 && KeyTab(code).DoSelf?
    requires k.mode & 0x20 != 0 && k.mode & 0x1C == 0
    requires !IsLetter(l.alt[code])
    ensures Emitted(l, k, code) == if l.alt[code] == 0 then [] else [l.alt[code]]
  {}

  lemma AltMask(mode: bv8)
    ensures mode & 0x1C == 0 <==> mode & 0x4 == 0 && mode & 0x8 == 0 && mode & 0x10 == 0
  {}

  /** With the right alt key alone, over every history, a key of the main block types its alt
      legend, or nothing where it has none, whatever shift and caps lock say. */
  lemma RightAltSelects(h: seq<nat>, code: nat, x: bv8, y: bv8)
    requires 0x01 <= code <= 0x34 && code != 0x1D && code != 0x2A
    requires DownOn(h, 0x38, 0xB8, true) && !DownOn(h, 0x38, 0xB8, false)
    requires !DownOn(h, 0x1D, 0x9D, false) && !DownOn(h, 0x1D, 0x9D, true)
    ensures var out := Emitted(KernelLayout(x, y), After(h), code);
            if AltLegend(code) == '\0' then out == [] else |out| == 1 && out[0] as char == AltLegend(code)
  {
    hide ShiftMap, KeyMap, AltMap, Emitted, After, AltLegend;
    ModeReflectsHistory(h);
    AltMask(After(h).mode);
    AltTable(code);
    AltEmits(KernelLayout(x, y), After(h), code);
  }
}
