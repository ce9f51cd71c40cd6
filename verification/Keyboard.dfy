/** The keyboard of src/keyboard.c: a machine that turns scan codes into characters and keeps
    the state of the modifier keys. Characters and bit masks are bytes, as in the C code. */
module Keyboard {

  // ------------------------------------------------------------------- Tables

  /** `shift_map`, src/keyboard.c:24-32. */
  function ShiftMap(code: nat): bv8
    requires code < 98
  {
    match code
    case 0x01 => 0x1B
    case 0x02 => 0x21
    case 0x03 => 0x40
    case 0x04 => 0x23
    case 0x05 => 0x24
    case 0x06 => 0x25
    case 0x07 => 0x5E
    case 0x08 => 0x26
    case 0x09 => 0x2A
    case 0x0A => 0x28
    case 0x0B => 0x29
    case 0x0C => 0x5F
    case 0x0D => 0x2B
    case 0x0E => 0x7F
    case 0x0F => 0x09
    case 0x10 => 0x51
    case 0x11 => 0x57
    case 0x12 => 0x45
    case 0x13 => 0x52
    case 0x14 => 0x54
    case 0x15 => 0x59
    case 0x16 => 0x55
    case 0x17 => 0x49
    case 0x18 => 0x4F
    case 0x19 => 0x50
    case 0x1A => 0x7B
    case 0x1B => 0x7D
    case 0x1C => 0x0A
    case 0x1E => 0x41
    case 0x1F => 0x53
    case 0x20 => 0x44
    case 0x21 => 0x46
    case 0x22 => 0x47
    case 0x23 => 0x48
    case 0x24 => 0x4A
    case 0x25 => 0x4B
    case 0x26 => 0x4C
    case 0x27 => 0x3A
    case 0x28 => 0x22
    case 0x29 => 0x7E
    case 0x2B => 0x7C
    case 0x2C => 0x5A
    case 0x2D => 0x58
    case 0x2E => 0x43
    case 0x2F => 0x56
    case 0x30 => 0x42
    case 0x31 => 0x4E
    case 0x32 => 0x4D
    case 0x33 => 0x3C
    case 0x34 => 0x3E
    case 0x35 => 0x3F
    case 0x37 => 0x2A
    case 0x3A => 0x20
    case 0x4A => 0x2D
    case 0x4E => 0x2B
    case 0x57 => 0x3E
    case _ => 0
  }

  /** `key_map`, src/keyboard.c:35-41. */
  function KeyMap(code: nat): bv8
    requires code < 79
  {
    match code
    case 0x01 => 0x1B
    case 0x02 => 0x31
    case 0x03 => 0x32
    case 0x04 => 0x33
    case 0x05 => 0x34
    case 0x06 => 0x35
    case 0x07 => 0x36
    case 0x08 => 0x37
    case 0x09 => 0x38
    case 0x0A => 0x39
    case 0x0B => 0x30
    case 0x0C => 0x2D
    case 0x0D => 0x3D
    case 0x0E => 0x7F
    case 0x0F => 0x09
    case 0x10 => 0x71
    case 0x11 => 0x77
    case 0x12 => 0x65
    case 0x13 => 0x72
    case 0x14 => 0x74
    case 0x15 => 0x79
    case 0x16 => 0x75
    case 0x17 => 0x69
    case 0x18 => 0x6F
    case 0x19 => 0x70
    case 0x1A => 0x5B
    case 0x1B => 0x5D
    case 0x1C => 0x0A
    case 0x1E => 0x61
    case 0x1F => 0x73
    case 0x20 => 0x64
    case 0x21 => 0x66
    case 0x22 => 0x67
    case 0x23 => 0x68
    case 0x24 => 0x6A
    case 0x25 => 0x6B
    case 0x26 => 0x6C
    case 0x27 => 0x3B
    case 0x28 => 0x27
    case 0x29 => 0x60
    case 0x2B => 0x5C
    case 0x2C => 0x7A
    case 0x2D => 0x78
    case 0x2E => 0x63
    case 0x2F => 0x76
    case 0x30 => 0x62
    case 0x31 => 0x6E
    case 0x32 => 0x6D
    case 0x33 => 0x2C
    case 0x34 => 0x2E
    case 0x35 => 0x2F
    case 0x37 => 0x2A
    case 0x39 => 0x20
    case 0x3A => 0x10
    case 0x3B => 0x01
    case 0x3D => 0x2D
    case 0x41 => 0x2B
    case 0x49 => 0x3C
    case 0x4A => 0x2D
    case 0x4B => 0x01
    case 0x4E => 0x2B
    case _ => 0
  }

  /** `alt_map`, src/keyboard.c:45-50. */
  function AltMap(code: nat): bv8
    requires code < 84
  {
    match code
    case 0x03 => 0x40
    case 0x05 => 0x24
    case 0x08 => 0x7B
    case 0x09 => 0x5B
    case 0x0A => 0x5D
    case 0x0B => 0x7D
    case 0x0C => 0x5C
    case 0x1B => 0x7E
    case 0x1C => 0x0A
    case 0x3A => 0x10
    case 0x3B => 0x01
    case 0x49 => 0x7C
    case _ => 0
  }

  /** The key functions of `key_tab`, src/keyboard.c:76-141, that change the state kept here;
      function keys and cursor keys do not. */
  datatype KeyFn = DoSelf | Minus | Ctrl | Unctrl | Alt | Unalt | LShift | Unlshift | RShift | Unrshift
                 | Caps | Uncaps | Num | ScrollLock | Other

  function KeyTab(code: nat): KeyFn {
    match code
    case 0x1D => Ctrl
    case 0x2A => LShift
    case 0x35 => Minus
    case 0x36 => RShift
    case 0x38 => Alt
    case 0x3A => Caps
    case 0x45 => Num
    case 0x46 => ScrollLock
    case 0x9D => Unctrl
    case 0xAA => Unlshift
    case 0xB6 => Unrshift
    case 0xB8 => Unalt
    case 0xBA => Uncaps
    case _ =>
      if 0x01 <= code <= 0x34 || code == 0x37 || code == 0x39 || code == 0x4A || code == 0x4E || code == 0x56
      then DoSelf else Other
  }

  // -------------------------------------------------------------------- State

  /** The three tables a character is looked up in, and the byte that memory holds behind each
      of them where scan code 0x56 reads: key_map ends at 0x4E and alt_map at 0x53. */
  datatype Layout = Layout(shift: seq<bv8>, plain: seq<bv8>, alt: seq<bv8>, behindPlain: bv8, behindAlt: bv8) {
    predicate Fits() {
      |shift| == 98 && |plain| == 79 && |alt| == 84
    }
  }

  function Read(table: seq<bv8>, behind: bv8, code: nat): bv8 {
    if code < |table| then table[code] else behind
  }

  /** The layout of src/keyboard.c:24-50, with any bytes behind the tables. */
  function KernelLayout(behindPlain: bv8, behindAlt: bv8): (l: Layout)
    ensures l.Fits()
  {
    Layout(seq(98, i requires 0 <= i < 98 => ShiftMap(i)), seq(79, i requires 0 <= i < 79 => KeyMap(i)),
           seq(84, i requires 0 <= i < 84 => AltMap(i)), behindPlain, behindAlt)
  }

  /** `mode`, `leds` and `e0`. */
  datatype Keys = Keys(mode: bv8, leds: bv8, e0: bv8)

  /** init_kbd, src/keyboard.c:391-395. */
  const INITIAL := Keys(0, 2, 0)

  predicate IsPrefix(code: nat) {
    code == 0xE0 || code == 0xE1
  }

  function CapsPressed(k: Keys): Keys {
    if k.mode & 0x80 == 0 then k.(leds := k.leds ^ 0x4, mode := (k.mode ^ 0x40) | 0x80) else k
  }

  /** What the functions of the ctrl, alt, shift and caps-lock keys do to `mode`, a press of
      caps lock apart; `right` says whether a prefix stands before. */
  function NewMode(mode: bv8, right: bool, fn: KeyFn): bv8 {
    match fn
    case Ctrl => if right then mode | 0x8 else mode | 0x4
    case Unctrl => if right then mode & 0xF7 else mode & 0xFB
    case Alt => if right then mode | 0x20 else mode | 0x10
    case Unalt => if right then mode & 0xDF else mode & 0xEF
    case LShift => mode | 0x1
    case Unlshift => mode & 0xFE
    case RShift => mode | 0x2
    case Unrshift => mode & 0xFD
    case Uncaps => mode & 0x7F
    case _ => mode
  }

  /** What a key function does to the modifiers and the LEDs. */
  function Switched(k: Keys, fn: KeyFn): Keys {
    match fn
    case Caps => CapsPressed(k)
    case Num => k.(leds := k.leds ^ 0x2)
    case ScrollLock => k.(leds := k.leds ^ 0x1)
    case _ => k.(mode := NewMode(k.mode, k.e0 != 0, fn))
  }

  /** keyboard_handler, src/keyboard.c:155-168, on the modifiers. */
  function Handled(k: Keys, code: nat): Keys {
    if code == 0xE0 then k.(e0 := 1)
    else if code == 0xE1 then k.(e0 := 2)
    else Switched(k, KeyTab(code)).(e0 := 0)
  }

  /** The case of a letter and the marks of ctrl and alt, src/keyboard.c:193-217. */
  function Modified(mode: bv8, ch: bv8): bv8 {
    var c1 :=
      if mode & 0x4C == 0 then ch
      else
        var c0 :=
          if mode & 0x41 == 0x41 || mode & 0x42 == 0x42 || mode & 0x43 == 0x43 then
            (if 0x41 <= ch <= 0x5A then ch + 0x20 else ch)
          else if 0x61 <= ch <= 0x7A then ch - 0x20
          else ch;
        if mode & 0xC != 0 then c0 - 0x40 else c0;
    if mode & 0x10 != 0 then c1 | 0x80 else c1
  }

  /** The character that do_self looks up, src/keyboard.c:180-188. */
  function Looked(l: Layout, mode: bv8, code: nat): bv8 {
    if mode & 0x20 != 0 then Read(l.alt, l.behindAlt, code)
    else if mode & 0x3 != 0 then Read(l.shift, 0, code)
    else Read(l.plain, l.behindPlain, code)
  }

  /** What do_self puts into the buffer, src/keyboard.c:174-223. */
  function Typed(l: Layout, mode: bv8, code: nat): seq<bv8> {
    if Looked(l, mode, code) == 0 then [] else [Modified(mode, Looked(l, mode, code))]
  }

  /** What one scan code puts into the buffer. */
  function Emitted(l: Layout, k: Keys, code: nat): seq<bv8> {
    match KeyTab(code)
    case DoSelf => Typed(l, k.mode, code)
    case Minus => if k.e0 != 1 then Typed(l, k.mode, code) else []
    case _ => []
  }

  // ----------------------------------------------------------------- The code

  class Driver {
    const layout: Layout
    var mode: bv8
    var leds: bv8
    var e0: bv8
    var buffer: seq<bv8>

    function View(): Keys
      reads this
    {
      Keys(mode, leds, e0)
    }

    constructor (l: Layout)
      ensures layout == l && View() == INITIAL && buffer == []
    {
      layout := l;
      mode, leds, e0, buffer := 0, 2, 0, [];
    }

    /** The changes of case and the marks in `do_self`, src/keyboard.c:193-217. */
    method Modify(c: bv8) returns (ch: bv8)
      ensures ch == Modified(mode, c)
    {
      ch := c;
      if mode & 0x4C != 0 {
        if mode & 0x41 == 0x41 || mode & 0x42 == 0x42 || mode & 0x43 == 0x43 {
          if ch <= 0x5A && ch >= 0x41 {
            ch := ch + 0x20;
          }
        } else if ch <= 0x7A && ch >= 0x61 {
          ch := ch - 0x20;
        }
        if mode & 0xC != 0 {
          ch := ch - 0x40;
        }
      }
      if mode & 0x10 != 0 {
        ch := ch | 0x80;
      }
    }

    /** `do_self`, src/keyboard.c:174-223. */
    method DoSelf(scan_code: nat)
      requires layout.Fits() && scan_code < 98
      modifies this`buffer
      ensures buffer == old(buffer) + Typed(layout, mode, scan_code)
    {
      var ch;
      if mode & 0x20 != 0 {
        ch := Read(layout.alt, layout.behindAlt, scan_code);
      } else if mode & 0x3 != 0 {
        ch := layout.shift[scan_code];
      } else {
        ch := Read(layout.plain, layout.behindPlain, scan_code);
      }
      if ch == 0 {
        return;
      }
      ch := Modify(ch);
      buffer := buffer + [ch];
    }

    /** `caps`, src/keyboard.c:290-298: once per press, however often the key repeats. */
    method Caps()
      modifies this`mode, this`leds
      ensures View() == CapsPressed(old(View()))
    {
      if mode & 0x80 == 0 {
        leds := leds ^ 0x4;
        mode := mode ^ 0x40;
        mode := mode | 0x80;
      }
    }

    /** The key functions of ctrl, alt, shift and of letting caps lock go,
        src/keyboard.c:226-287 and 301-304. */
    method SwitchMode(fn: KeyFn)
      modifies this`mode
      ensures mode == NewMode(old(mode), e0 != 0, fn)
    {
      match fn {
        case Ctrl => mode := if e0 != 0 then mode | 0x8 else mode | 0x4;
        case Unctrl => mode := if e0 != 0 then mode & 0xF7 else mode & 0xFB;
        case Alt => mode := if e0 != 0 then mode | 0x20 else mode | 0x10;
        case Unalt => mode := if e0 != 0 then mode & 0xDF else mode & 0xEF;
        case LShift => mode := mode | 0x1;
        case Unlshift => mode := mode & 0xFE;
        case RShift => mode := mode | 0x2;
        case Unrshift => mode := mode & 0xFD;
        case Uncaps => mode := mode & 0x7F;
        case _ =>
      }
    }

    /** The key functions that change modifiers and LEDs, src/keyboard.c:226-317. */
    method Switch(fn: KeyFn)
      modifies this`mode, this`leds
      ensures View() == Switched(old(View()), fn)
    {
      hide NewMode;
      match fn {
        case Caps => Caps();
        case Num => leds := leds ^ 0x2;
        case ScrollLock => leds := leds ^ 0x1;
        case _ => SwitchMode(fn);
      }
    }

    /** `keyboard_handler`, src/keyboard.c:155-168. */
    method KeyboardHandler(scan_code: nat)
      requires layout.Fits()
      modifies this
      ensures View() == Handled(old(View()), scan_code)
      ensures buffer == old(buffer) + Emitted(layout, old(View()), scan_code)
    {
      if scan_code == 0xE0 {
        e0 := 1;
      } else if scan_code == 0xE1 {
        e0 := 2;
      } else {
        var fn := KeyTab(scan_code);
        match fn {
          case DoSelf => DoSelf(scan_code);
          case Minus => if e0 != 1 { DoSelf(scan_code); }
          case _ => Switch(fn);
        }
        e0 := 0;
      }
    }
  }

  // ---------------------------------------------------------------- Histories

  /** The modifiers after any history of scan codes. */
  function After(h: seq<nat>): Keys
    decreases |h|
  {
    if h == [] then INITIAL else Handled(After(h[..|h| - 1]), h[|h| - 1])
  }

  /** The last of the two events of a key was the press. */
  predicate Down(h: seq<nat>, press: nat, release: nat)
    decreases |h|
  {
    h != [] && (h[|h| - 1] == press || (h[|h| - 1] != release && Down(h[..|h| - 1], press, release)))
  }

  predicate Prefixed(h: seq<nat>) {
    h != [] && IsPrefix(h[|h| - 1])
  }

  /** The same for a key that shares its codes with another one, from which a prefix tells it. */
  predicate DownOn(h: seq<nat>, press: nat, release: nat, right: bool)
    decreases |h|
  {
    h != [] &&
    if (h[|h| - 1] == press || h[|h| - 1] == release) && Prefixed(h[..|h| - 1]) == right
    then h[|h| - 1] == press
    else DownOn(h[..|h| - 1], press, release, right)
  }

  /** Whether the caps-lock key went down an odd number of times, its repeats not counted. */
  predicate OddPresses(h: seq<nat>)
    decreases |h|
  {
    h != [] && OddPresses(h[..|h| - 1]) != (h[|h| - 1] == 0x3A && !Down(h[..|h| - 1], 0x3A, 0xBA))
  }

  predicate ShiftsReflect(mode: bv8, h: seq<nat>) {
    && (mode & 0x01 != 0 <==> Down(h, 0x2A, 0xAA))
    && (mode & 0x02 != 0 <==> Down(h, 0x36, 0xB6))
  }

  predicate CtrlsReflect(mode: bv8, h: seq<nat>) {
    && (mode & 0x04 != 0 <==> DownOn(h, 0x1D, 0x9D, false))
    && (mode & 0x08 != 0 <==> DownOn(h, 0x1D, 0x9D, true))
  }

  predicate AltsReflect(mode: bv8, h: seq<nat>) {
    && (mode & 0x10 != 0 <==> DownOn(h, 0x38, 0xB8, false))
    && (mode & 0x20 != 0 <==> DownOn(h, 0x38, 0xB8, true))
  }

  predicate CapsReflects(mode: bv8, leds: bv8, h: seq<nat>) {
    && (mode & 0x80 != 0 <==> Down(h, 0x3A, 0xBA))
    && (mode & 0x40 != 0 <==> OddPresses(h))
    && (leds & 0x04 != 0 <==> OddPresses(h))
  }

  /** Over every history each modifier bit says whether the last event of its key was a press,
      the left and the right key told apart by the prefix; caps lock toggles once per press
      however often the key repeats, and equals its LED. */
  lemma {:induction false} ModeReflectsHistory(h: seq<nat>)
    ensures After(h).e0 != 0 <==> Prefixed(h)
    ensures ShiftsReflect(After(h).mode, h) && CtrlsReflect(After(h).mode, h)
    ensures AltsReflect(After(h).mode, h) && CapsReflects(After(h).mode, After(h).leds, h)
    decreases |h|
  {
    if h == [] {
      NothingDown();
    } else {
      hide Handled, ShiftsReflect, CtrlsReflect, AltsReflect, CapsReflects;
      var before := h[..|h| - 1];
      ModeReflectsHistory(before);
      PrefixStep(After(before), h[|h| - 1]);
      ShiftsHold(After(before), before, h);
      CtrlsHold(After(before), before, h);
      AltsHold(After(before), before, h);
      CapsHold(After(before), before, h);
    }
  }

  lemma NothingDown()
    ensures ShiftsReflect(INITIAL.mode, []) && CtrlsReflect(INITIAL.mode, [])
    ensures AltsReflect(INITIAL.mode, []) && CapsReflects(INITIAL.mode, INITIAL.leds, [])
  {}

  lemma ShiftsHold(k: Keys, before: seq<nat>, h: seq<nat>)
    requires h != [] && before == h[..|h| - 1] && ShiftsReflect(k.mode, before)
    ensures ShiftsReflect(Handled(k, h[|h| - 1]).mode, h)
  {
    hide Handled;
    ShiftStep(k, h[|h| - 1]);
  }

  lemma CtrlsHold(k: Keys, before: seq<nat>, h: seq<nat>)
    requires h != [] && before == h[..|h| - 1] && CtrlsReflect(k.mode, before)
    requires k.e0 != 0 <==> Prefixed(before)
    ensures CtrlsReflect(Handled(k, h[|h| - 1]).mode, h)
  {
    hide Handled;
    CtrlStep(k, h[|h| - 1]);
  }

  lemma AltsHold(k: Keys, before: seq<nat>, h: seq<nat>)
    requires h != [] && before == h[..|h| - 1] && AltsReflect(k.mode, before)
    requires k.e0 != 0 <==> Prefixed(before)
    ensures AltsReflect(Handled(k, h[|h| - 1]).mode, h)
  {
    hide Handled;
    AltStep(k, h[|h| - 1]);
  }

  lemma CapsHold(k: Keys, before: seq<nat>, h: seq<nat>)
    requires h != [] && before == h[..|h| - 1] && CapsReflects(k.mode, k.leds, before)
    ensures CapsReflects(Handled(k, h[|h| - 1]).mode, Handled(k, h[|h| - 1]).leds, h)
  {
    hide Handled;
    CapsStep(k, h[|h| - 1]);
  }

  /** Which scan codes reach the key functions of the modifiers. */
  lemma KeyCodes(code: nat)
    ensures KeyTab(code).LShift? == (code == 0x2A) && KeyTab(code).Unlshift? == (code == 0xAA)
    ensures KeyTab(code).RShift? == (code == 0x36) && KeyTab(code).Unrshift? == (code == 0xB6)
    ensures KeyTab(code).Ctrl? == (code == 0x1D) && KeyTab(code).Unctrl? == (code == 0x9D)
    ensures KeyTab(code).Alt? == (code == 0x38) && KeyTab(code).Unalt? == (code == 0xB8)
    ensures KeyTab(code).Caps? == (code == 0x3A) && KeyTab(code).Uncaps? == (code == 0xBA)
  {}

  lemma LeftShiftBit(k: Keys, fn: KeyFn)
    ensures Switched(k, fn).mode & 0x01 != 0 <==> fn.LShift? || (!fn.Unlshift? && k.mode & 0x01 != 0)
  {}

  lemma RightShiftBit(k: Keys, fn: KeyFn)
    ensures Switched(k, fn).mode & 0x02 != 0 <==> fn.RShift? || (!fn.Unrshift? && k.mode & 0x02 != 0)
  {
    match fn
    case Caps =>
    case _ =>
  }

  lemma LeftCtrlBit(k: Keys, fn: KeyFn)
    ensures Switched(k, fn).mode & 0x04 != 0 <==>
              if (fn.Ctrl? || fn.Unctrl?) && k.e0 == 0 then fn.Ctrl? else k.mode & 0x04 != 0
  {}

  lemma RightCtrlBit(k: Keys, fn: KeyFn)
    ensures Switched(k, fn).mode & 0x08 != 0 <==>
              if (fn.Ctrl? || fn.Unctrl?) && k.e0 != 0 then fn.Ctrl? else k.mode & 0x08 != 0
  {}

  lemma LeftAltBit(k: Keys, fn: KeyFn)
    ensures Switched(k, fn).mode & 0x10 != 0 <==>
              if (fn.Alt? || fn.Unalt?) && k.e0 == 0 then fn.Alt? else k.mode & 0x10 != 0
  {}

  lemma RightAltBit(k: Keys, fn: KeyFn)
    ensures Switched(k, fn).mode & 0x20 != 0 <==>
              if (fn.Alt? || fn.Unalt?) && k.e0 != 0 then fn.Alt? else k.mode & 0x20 != 0
  {}

  lemma CapsDownBit(k: Keys, fn: KeyFn)
    ensures Switched(k, fn).mode & 0x80 != 0 <==> fn.Caps? || (!fn.Uncaps? && k.mode & 0x80 != 0)
  {}

  lemma CapsLockBit(k: Keys, fn: KeyFn)
    ensures Switched(k, fn).mode & 0x40 != 0 <==> (k.mode & 0x40 != 0) != (fn.Caps? && k.mode & 0x80 == 0)
  {
    match fn
    case Caps => LockToggles(k.mode);
    case _ => LockStays(k.mode);
  }

  lemma LockStays(mode: bv8)
    ensures (mode | 0x8) & 0x40 == mode & 0x40 == (mode | 0x4) & 0x40
    ensures (mode & 0xF7) & 0x40 == mode & 0x40 == (mode & 0xFB) & 0x40
    ensures (mode | 0x20) & 0x40 == mode & 0x40 == (mode | 0x10) & 0x40
    ensures (mode & 0xDF) & 0x40 == mode & 0x40 == (mode & 0xEF) & 0x40
    ensures (mode | 0x1) & 0x40 == mode & 0x40 == (mode | 0x2) & 0x40
    ensures (mode & 0xFE) & 0x40 == mode & 0x40 == (mode & 0xFD) & 0x40
    ensures (mode & 0x7F) & 0x40 == mode & 0x40
  {}

  lemma LockToggles(mode: bv8)
    ensures ((mode ^ 0x40) | 0x80) & 0x40 != 0 <==> mode & 0x40 == 0
  {}

  lemma CapsLed(k: Keys, fn: KeyFn)
    ensures Switched(k, fn).leds & 0x04 != 0 <==> (k.leds & 0x04 != 0) != (fn.Caps? && k.mode & 0x80 == 0)
  {
    hide NewMode;
    LedToggles(k.leds);
  }

  lemma LedToggles(leds: bv8)
    ensures (leds ^ 0x4) & 0x04 != 0 <==> leds & 0x04 == 0
    ensures (leds ^ 0x2) & 0x04 == leds & 0x04 == (leds ^ 0x1) & 0x04
  {}

  lemma OtherLeds(k: Keys, fn: KeyFn)
    ensures Switched(k, fn).leds & 0x02 != 0 <==> (k.leds & 0x02 != 0) != fn.Num?
    ensures Switched(k, fn).leds & 0x01 != 0 <==> (k.leds & 0x01 != 0) != fn.ScrollLock?
  {
    hide NewMode;
    OtherLedsToggle(k.leds);
  }

  lemma OtherLedsToggle(leds: bv8)
    ensures (leds ^ 0x2) & 0x02 != 0 <==> leds & 0x02 == 0
    ensures (leds ^ 0x1) & 0x01 != 0 <==> leds & 0x01 == 0
    ensures (leds ^ 0x4) & 0x02 == leds & 0x02 == (leds ^ 0x1) & 0x02
    ensures (leds ^ 0x4) & 0x01 == leds & 0x01 == (leds ^ 0x2) & 0x01
  {}

  predicate SameBit(a: bv8, b: bv8, mask: bv8) {
    a & mask != 0 <==> b & mask != 0
  }

  /** Each of the eight bits of `mode` and the three LEDs is changed by its own key functions
      only, left and right told apart by the prefix, and none changes the prefix. */
  lemma OthersStay(k: Keys, fn: KeyFn)
    ensures var s := Switched(k, fn);
            && s.e0 == k.e0
            && (!fn.LShift? && !fn.Unlshift? ==> SameBit(s.mode, k.mode, 0x01))
            && (!fn.RShift? && !fn.Unrshift? ==> SameBit(s.mode, k.mode, 0x02))
            && (!((fn.Ctrl? || fn.Unctrl?) && k.e0 == 0) ==> SameBit(s.mode, k.mode, 0x04))
            && (!((fn.Ctrl? || fn.Unctrl?) && k.e0 != 0) ==> SameBit(s.mode, k.mode, 0x08))
            && (!((fn.Alt? || fn.Unalt?) && k.e0 == 0) ==> SameBit(s.mode, k.mode, 0x10))
            && (!((fn.Alt? || fn.Unalt?) && k.e0 != 0) ==> SameBit(s.mode, k.mode, 0x20))
            && (!fn.Caps? ==> SameBit(s.mode, k.mode, 0x40))
            && (!fn.Caps? && !fn.Uncaps? ==> SameBit(s.mode, k.mode, 0x80))
            && LedsStay(s, k, fn)
  {
    PrefixStays(k, fn);
    hide Switched;
    LeftShiftBit(k, fn);
    RightShiftBit(k, fn);
    LeftCtrlBit(k, fn);
    RightCtrlBit(k, fn);
    LeftAltBit(k, fn);
    RightAltBit(k, fn);
    CapsDownBit(k, fn);
    CapsLockBit(k, fn);
    EachLedStays(k, fn);
    hide LedsStay;
  }

  predicate LedsStay(s: Keys, k: Keys, fn: KeyFn) {
    && (!fn.ScrollLock? ==> SameBit(s.leds, k.leds, 0x01))
    && (!fn.Num? ==> SameBit(s.leds, k.leds, 0x02))
    && (!fn.Caps? ==> SameBit(s.leds, k.leds, 0x04))
  }

  lemma EachLedStays(k: Keys, fn: KeyFn)
    ensures LedsStay(Switched(k, fn), k, fn)
  {
    hide Switched;
    CapsLed(k, fn);
    OtherLeds(k, fn);
  }

  lemma PrefixStays(k: Keys, fn: KeyFn)
    ensures Switched(k, fn).e0 == k.e0
  {}

  lemma PrefixStep(k: Keys, code: nat)
    ensures Handled(k, code).e0 != 0 <==> IsPrefix(code)
  {}

  lemma ShiftStep(k: Keys, code: nat)
    ensures Handled(k, code).mode & 0x01 != 0 <==> code == 0x2A || (code != 0xAA && k.mode & 0x01 != 0)
    ensures Handled(k, code).mode & 0x02 != 0 <==> code == 0x36 || (code != 0xB6 && k.mode & 0x02 != 0)
  {
    hide KeyTab, Switched;
    KeyCodes(code);
    LeftShiftBit(k, KeyTab(code));
    RightShiftBit(k, KeyTab(code));
  }

  lemma CtrlStep(k: Keys, code: nat)
    ensures Handled(k, code).mode & 0x04 != 0
       <==> if (code == 0x1D || code == 0x9D) && k.e0 == 0 then code == 0x1D else k.mode & 0x04 != 0
    ensures Handled(k, code).mode & 0x08 != 0
       <==> if (code == 0x1D || code == 0x9D) && k.e0 != 0 then code == 0x1D else k.mode & 0x08 != 0
  {
    hide KeyTab, Switched;
    KeyCodes(code);
    LeftCtrlBit(k, KeyTab(code));
    RightCtrlBit(k, KeyTab(code));
  }

  lemma AltStep(k: Keys, code: nat)
    ensures Handled(k, code).mode & 0x10 != 0
       <==> if (code == 0x38 || code == 0xB8) && k.e0 == 0 then code == 0x38 else k.mode & 0x10 != 0
    ensures Handled(k, code).mode & 0x20 != 0
       <==> if (code == 0x38 || code == 0xB8) && k.e0 != 0 then code == 0x38 else k.mode & 0x20 != 0
  {
    hide KeyTab, Switched;
    if code != 0xE0 && code != 0xE1 {
      KeyCodes(code);
      LeftAltBit(k, KeyTab(code));
      RightAltBit(k, KeyTab(code));
    }
  }

  lemma CapsStep(k: Keys, code: nat)
    ensures Handled(k, code).mode & 0x80 != 0 <==> code == 0x3A || (code != 0xBA && k.mode & 0x80 != 0)
    ensures Handled(k, code).mode & 0x40 != 0
       <==> (k.mode & 0x40 != 0) != (code == 0x3A && k.mode & 0x80 == 0)
    ensures Handled(k, code).leds & 0x04 != 0
       <==> (k.leds & 0x04 != 0) != (code == 0x3A && k.mode & 0x80 == 0)
  {
    hide KeyTab, Switched;
    KeyCodes(code);
    CapsDownBit(k, KeyTab(code));
    CapsLockBit(k, KeyTab(code));
    CapsLed(k, KeyTab(code));
  }

  // ------------------------------------------------------------------ Letters

  predicate IsLetterKey(code: nat) {
    0x10 <= code <= 0x19 || 0x1E <= code <= 0x26 || 0x2C <= code <= 0x32
  }

  /** No ctrl and no alt key is down. */
  predicate Unmarked(h: seq<nat>) {
    && !DownOn(h, 0x1D, 0x9D, false) && !DownOn(h, 0x1D, 0x9D, true)
    && !DownOn(h, 0x38, 0xB8, false) && !DownOn(h, 0x38, 0xB8, true)
  }

  predicate Shifted(h: seq<nat>) {
    Down(h, 0x2A, 0xAA) || Down(h, 0x36, 0xB6)
  }

  predicate TwoCases(plain: bv8, shift: bv8) {
    0x61 <= plain <= 0x7A && shift == plain - 0x20
  }

  /** The tables hold the same letter in its two cases. */
  lemma LetterTables(code: nat)
    requires IsLetterKey(code)
    ensures TwoCases(KeyMap(code), ShiftMap(code))
  {
    if code <= 0x19 {
      UpperRow(code);
    } else if code <= 0x26 {
      HomeRow(code);
    } else {
      LowerRow(code);
    }
  }

  lemma UpperRow(code: nat)
    requires 0x10 <= code <= 0x19
    ensures TwoCases(KeyMap(code), ShiftMap(code))
  {}

  lemma HomeRow(code: nat)
    requires 0x1E <= code <= 0x26
    ensures TwoCases(KeyMap(code), ShiftMap(code))
  {}

  lemma LowerRow(code: nat)
    requires 0x2C <= code <= 0x32
    ensures TwoCases(KeyMap(code), ShiftMap(code))
  {}

  /** Without ctrl and alt, a letter key yields upper case exactly when one of shift and caps
      lock is in force, over every history. */
  lemma LetterCase(h: seq<nat>, code: nat, x: bv8, y: bv8)
    requires IsLetterKey(code) && Unmarked(h)
    ensures Emitted(KernelLayout(x, y), After(h), code)
         == [if Shifted(h) != OddPresses(h) then KernelLayout(x, y).shift[code] else KernelLayout(x, y).plain[code]]
  {
    hide ShiftMap, KeyMap, AltMap, Typed, After;
    ModeReflectsHistory(h);
    LetterTables(code);
    MaskBits(After(h).mode);
    LetterOf(KernelLayout(x, y), After(h), code);
  }

  lemma MaskBits(mode: bv8)
    ensures mode & 0x3C == 0 <==> mode & 0x4 == 0 && mode & 0x8 == 0 && mode & 0x10 == 0 && mode & 0x20 == 0
    ensures mode & 0x3 == 0 <==> mode & 0x1 == 0 && mode & 0x2 == 0
  {}

  lemma LetterOf(l: Layout, k: Keys, code: nat)
    requires l.Fits() && IsLetterKey(code) && TwoCases(l.plain[code], l.shift[code])
    requires k.mode & 0x3C == 0
    ensures Emitted(l, k, code)
         == [if (k.mode & 0x3 != 0) != (k.mode & 0x40 != 0) then l.shift[code] else l.plain[code]]
  {}

  /** Ctrl with a letter key and no alt key yields the control code of the letter, whatever
      shift or caps lock say, unless both are in force: the code then takes away 0x40 from
      the lower-case letter. */
  lemma ControlCode(h: seq<nat>, code: nat, x: bv8, y: bv8)
    requires IsLetterKey(code)
    requires DownOn(h, 0x1D, 0x9D, false) || DownOn(h, 0x1D, 0x9D, true)
    requires !DownOn(h, 0x38, 0xB8, false) && !DownOn(h, 0x38, 0xB8, true)
    ensures var c := KernelLayout(x, y).shift[code] - 0x40;
            && 1 <= c <= 26
            && Emitted(KernelLayout(x, y), After(h), code) == [if Shifted(h) && OddPresses(h) then c + 0x20 else c]
  {
    hide ShiftMap, KeyMap, AltMap, Typed, After;
    ModeReflectsHistory(h);
    LetterTables(code);
    ControlBits(After(h).mode);
    ControlOf(KernelLayout(x, y), After(h), code);
  }

  lemma ControlBits(mode: bv8)
    ensures mode & 0xC == 0 <==> mode & 0x4 == 0 && mode & 0x8 == 0
    ensures mode & 0x30 == 0 <==> mode & 0x10 == 0 && mode & 0x20 == 0
    ensures mode & 0x3 == 0 <==> mode & 0x1 == 0 && mode & 0x2 == 0
  {}

  lemma ControlOf(l: Layout, k: Keys, code: nat)
    requires l.Fits() && IsLetterKey(code) && TwoCases(l.plain[code], l.shift[code])
    requires k.mode & 0xC != 0 && k.mode & 0x30 == 0
    ensures Emitted(l, k, code)
         == [if k.mode & 0x3 != 0 && k.mode & 0x40 != 0 then l.shift[code] - 0x20 else l.shift[code] - 0x40]
  {}

  /** The left alt key adds the top bit to whatever would be typed without it. */
  lemma AltMarks(l: Layout, mode: bv8, code: nat)
    requires mode & 0x10 != 0
    ensures var plain := Typed(l, mode & 0xEF, code);
            Typed(l, mode, code) == if plain == [] then [] else [plain[0] | 0x80]
  {
    AltAlone(mode);
  }

  lemma AltAlone(mode: bv8)
    ensures (mode & 0xEF) & 0x20 == mode & 0x20 && (mode & 0xEF) & 0x3 == mode & 0x3
    ensures (mode & 0xEF) & 0x4C == mode & 0x4C && (mode & 0xEF) & 0xC == mode & 0xC
    ensures (mode & 0xEF) & 0x41 == mode & 0x41 && (mode & 0xEF) & 0x42 == mode & 0x42
    ensures (mode & 0xEF) & 0x43 == mode & 0x43 && (mode & 0xEF) & 0x10 == 0
  {}

  /** The space bar (0x39) has no entry in shift_map: without ctrl and alt it yields a space
      exactly when no shift key is down. */
  lemma SpaceBar(h: seq<nat>, x: bv8, y: bv8)
    requires Unmarked(h)
    ensures Emitted(KernelLayout(x, y), After(h), 0x39) == if Shifted(h) then [] else [0x20]
  {
    hide ShiftMap, KeyMap, AltMap, Typed, After;
    ModeReflectsHistory(h);
    MaskBits(After(h).mode);
    SpaceTables();
    SpaceOf(KernelLayout(x, y), After(h));
  }

  lemma SpaceTables()
    ensures ShiftMap(0x39) == 0 && KeyMap(0x39) == 0x20
  {}

  lemma SpaceOf(l: Layout, k: Keys)
    requires l.Fits() && l.plain[0x39] == 0x20 && l.shift[0x39] == 0 && k.mode & 0x3C == 0
    ensures Emitted(l, k, 0x39) == if k.mode & 0x3 != 0 then [] else [0x20]
  {}
}
