# A verified model of the kernel's core

This project models the parts of a small IA-32 kernel whose behaviour is hardest to see from
one function: the pair `vsprintf` and `_doscan` that prints and scans numbers and words, the
memory management from the frame stack up to the heap, the round-robin scheduler with its
context switch, and the console and keyboard drivers. Run `dafny verify dfyconfig.toml`.

The C code works in place, and so do the methods here: `Printf.Number` fills a buffer through
its 36-cell digit array, `Doscan.Scanf` moves a counted stream with one character of pushback,
`Paging.Memory` stores into the frame stack, the directory and the frames of physical memory,
`Memlib.Heap` rewrites header links, `ContextSwitch.Cpu` executes `switch_to` instruction by
instruction, and `Console.Monitor` shifts the cells of video memory. Every such method is
proved against a specification function on values, and the theorems below are about those
functions, over every input, every run and every history. The laws of `NumberFields`,
`FormatFields`, `ScanFields` and `Legends`, `Strtol.Saturates` and `Console.TextShown` say in plain
characters and numbers what those functions yield.

| file | subject |
|---|---|
| Numerals, Printf, Vsprintf | C strings, numerals, `number`, `vsprintf` |
| NumberFields, FormatFields | what each flag, width, precision and conversion prints, character by character |
| Strtol, NumberRoundTrip | `string2long`, and `number` read back by it |
| Stream, Collect | `getc`, `ungetc`, `o_collect` |
| ScanSpec, Doscan | `_doscan`: specification and code |
| ScanRuns, ScanCounts, Scansets | every run of it: buffer, counts, return value, character sets |
| ScanFields | what each directive takes and stores, character by character |
| FormatRoundTrip, LowerHex | scanning what was printed, format by format |
| Paging | frame stack and two-level page tables |
| HeapSpec, HeapPages | the allocator on block lists and on pages, over runs |
| Links, Memlib | the header list, `kmalloc`, `kfree`, `_free_memory` |
| MixedRuns, Sharing | the heap beside other users of the frames, on values and on objects |
| Departures, FreeDepartures | five places of `memlib.c` as they are written |
| Scheduler, Interleaving | the run list; fairness; insertion under timer interrupts |
| ContextSwitch | `switch_to` and the stack of a new thread, over runs |
| Console, Keyboard, Legends | the scrolling window; modifiers and LEDs; what each key types |

## Where the code decides

Where code and documentation, or code and the standard it follows, disagree, the model does
what the code does.

* `string2long` takes "0x" without a digit behind it as consumed, where section 7.20.1.4 of
  ISO C99 stops behind the zero. `Strtol.AgreesWithStandard` gives the exact condition; the
  value always agrees.
* `isxdigit` in the scanner knows upper-case letters only, so that %x does not scan what %x
  prints once a letter occurs (`LowerHex.LowerHexScansBackIff`).
* `*` for width and precision takes an argument, but the format pointer stays on it, so the
  specification ends there as an unknown conversion. `Vsprintf.SpecOf` does the same.
* A literal that does not match is consumed by `_doscan` and not pushed back
  (`ScanRuns.LiteralIsConsumed`).
* `char` is signed, so a literal 0xFF in the format equals EOF and matches the end of the input,
  which is then counted as a character. `ScanRuns.CountIsPositionIff` says when the number that
  %n stores is the number of characters consumed, and `ScanRuns.CountOffAtEnd` is an example.
* A collected number of 512 characters needs a cell more than the 512 of `inp_buf` for its NUL.
  `Collect.FitsIff` gives the exact condition for one number; `Doscan.Scanf` works with the 512
  cells and requires that no number of the run fills them, which `ScanRuns.BufferSuffices`
  derives from the length of the input or from the widths in the format.
* The sums at lines 10 and 41 of `memlib.c` are 32-bit sums. Where the heap end plus the size
  reaches 2^32, the loop makes no turn, no assertion fires, and `kmalloc` appends a block without
  pages: `HeapPages.AppendBackedIff` is the exact condition, `HeapPages.WrapFailsOnExample` an
  example.
* `free_page` in `init_page` could push the address 0x20000000, which lies beyond the last
  frame; frames here lie below it.
* `monitor_write_hex` prints no digit for zero (`Console.HexAgreesIff`).
* `shift_map` holds the space at scan code 0x3A instead of 0x39, so that shift and space yield
  nothing (`Keyboard.SpaceBar`).
* Scan code 0x56 reads behind the end of `key_map` and `alt_map`; the bytes found there are
  parameters of the model.

The split and free paths of `memlib.c` depart from the coalescing allocator that the rest of
the file implements. `Memlib` takes the intended step at these five places, each named beside
the line, and `Departures` and `FreeDepartures` prove of the lines as they are written when they
are still right:

| line | as written | intended |
|---|---|---|
| src/memlib.c:18 | the rest starts behind the old block | the rest starts at node + size |
| src/memlib.c:19-23 | the successor keeps its `prev` | its `prev` is the rest |
| src/memlib.c:62 | lowers the pointer by 144 bytes | by the 12 bytes of lines 27 and 56 |
| src/memlib.c:73-79 | `node` stays in the list | prev->next and next->prev skip it |
| src/memlib.c:93-98 | looks up and unmaps the page at `mm_top` | the page just below it |

## Model

| member | source | states |
|---|---|---|
| Numerals.NumeralValue | src/printf.c:94-101 | the value of the digits that the repeated division yields is the number, in every base |
| Numerals.NumeralLength | src/printf.c:61 | a number below 2^k has at most k digits, hence 32 for a word |
| Numerals.NumeralDigits | src/printf.c:62-67 | digits are below the base and in the case asked for; only zero starts with a zero |
| Numerals.ValueLeadingZeros | src/_doscan.c:160-177 | leading zeros do not change the value |
| Printf.NumberTextLength | src/printf.c:84-139 | the text is exactly max(width, sign + prefix + max(digit count, precision)) long for every flag combination |
| Printf.CollectDigits | src/printf.c:94-101 | the digit loop stops after at most 32 digits, inside the 36 cells, and leaves the numeral backwards in them |
| Printf.TakeSign | src/printf.c:77-82 | the sign character, which `NumberFields.SignColumn` and `MinusColumn` name, and the magnitude; negation is modulo 2^32, so the smallest number is right too |
| Printf.Reserve | src/printf.c:84-93 | the width left over by sign and prefix |
| Printf.Pad | src/printf.c:109-111 | a padding loop writes max(0, size) characters and nothing behind them |
| Printf.CopyReversed | src/printf.c:132-134 | the digits come out in the right order |
| Printf.PutNumber | src/printf.c:108-137 | sign, prefix, fill, zeros and digits in order, with padding in exactly one place |
| Printf.Number | src/printf.c:60-140 | for every word, base, width, precision and flags: the buffer holds the specified text, the rest of it is unchanged, and a base outside 2 to 36 gives null and writes nothing |
| NumberFields.SignColumn | src/printf.c:77-82 | a number that is not negative has '+' in front with PLUS, a blank with SPACE alone, and nothing with neither |
| NumberFields.MinusColumn | src/printf.c:77-82 | a negative signed number is '-' and the text of its magnitude, whatever PLUS and SPACE say |
| NumberFields.BareText | src/printf.c:94-134 | the rest is 0x, 0X or 0 with SPECIAL, zeros up to the precision, and the numeral |
| NumberFields.WidthPads | src/printf.c:84-137 | for every width: spaces behind the text with LEFT, zeros between its head and its digits with ZEROPAD, spaces in front of it with neither |
| Vsprintf.SkipAtoi | src/printf.c:37-45 | reads a decimal number and leaves the format behind it |
| Vsprintf.ReadSpec | src/printf.c:160-209 | flags, width, precision and qualifier as `FormatFields.SpecIsRead` says |
| Vsprintf.PutField | src/printf.c:212-243 | a character or word in its field, padded on the side asked for |
| Vsprintf.Convert | src/printf.c:211-293 | each conversion character writes its text |
| Vsprintf.PrintTurn | src/printf.c:154-294 | one turn keeps: what is written, with what the rest of the format still prints, is the whole text |
| Vsprintf.Vsprintf | src/printf.c:142-298 | the buffer holds the text of the format and a NUL, each %n got the number of characters before it, and the rest is unchanged |
| FormatFields.SpecFlags | src/printf.c:160-187 | for every string of flag characters: '-' sets LEFT, '+' PLUS, ' ' SPACE, '#' SPECIAL and '0' ZEROPAD, and nothing else sets them, a negative argument for '*' apart |
| FormatFields.SpecIsRead | src/printf.c:160-209 | flags, a width and a precision as numerals and a qualifier, in front of any conversion character, are read as what they denote |
| FormatFields.ConversionIsLocal | src/printf.c:154-294 | a conversion prints the same text wherever it stands and takes one argument |
| FormatFields.NumberShown | src/printf.c:246-277 | %d %i %u %o %x %X %b without a width: sign, prefix, zeros up to the precision and digits, for every word, flags and precision |
| FormatFields.NumberWidthShown | src/printf.c:176-277 | with a width: padded behind with '-', with zeros behind the head with '0', in front with neither |
| FormatFields.PointerShown | src/printf.c:251-258 | %p is %X, with zeros up to eight digits when no width is given |
| FormatFields.TextShown | src/printf.c:212-244 | %s prints its word up to the precision, %c one character |
| FormatFields.TextWidthShown | src/printf.c:212-244 | a width pads them behind with '-' and in front without |
| FormatFields.CountShown | src/printf.c:279-282 | %n prints nothing and stores the number of characters before it |
| FormatFields.OthersShown | src/printf.c:284-292 | any other character is printed behind a '%', "%%" as one '%' |
| FormatFields.StarShown | src/printf.c:180-187 | '*' for the width takes an argument and is printed as an unknown conversion |
| FormatFields.DecimalFields | src/printf.c:154-298 | "%d", "%-wd", "%wd" and "%0wd" for every word and every width w |
| Strtol.WrapTest | src/_doscan.c:174 | the overflow test fires exactly when val * base + v exceeds ULONG_MAX |
| Strtol.DigitStep | src/_doscan.c:172-176 | the accumulator is exact until the value exceeds ULONG_MAX, and the overflow is never forgotten |
| Strtol.ReadPrefix | src/_doscan.c:138-158 | white space, sign and base prefix as specified |
| Strtol.ReadDigits | src/_doscan.c:160-177 | digit strings of any length: the value while it fits, an overflow mark otherwise |
| Strtol.String2Long | src/_doscan.c:128-199 | the mathematical value if representable, LONG_MIN, LONG_MAX or ULONG_MAX if not, and sign times magnitude modulo 2^32 for unsigned, all over integers; the end pointer |
| Strtol.Strtol | src/_doscan.c:114-118 | the same, signed |
| Strtol.Strtoul | src/_doscan.c:120-124 | the same, unsigned |
| Strtol.AgreesWithStandard | src/_doscan.c:138-199 | the magnitude equals that of the C99 subject sequence for every string; the end equals it if and only if the text is no lone 0x |
| Strtol.ScannedSaturates | src/_doscan.c:181-198 | with v the number of the C99 subject sequence: read as an int the signed result is v, or 2^31 - 1 or -2^31 when v is beyond; the unsigned one is v modulo 2^32, or 2^32 - 1 when the magnitude is beyond |
| Strtol.LonePrefixExample | src/_doscan.c:157-158 | for "0x" in base 16 the code stops at 2 and the standard at 1 |
| NumberRoundTrip.NumberScansBack | src/printf.c:60-140 | for every word, base 2 to 36, flags, width and precision, `string2long` reads the text of `number` back as the word, signed with SIGN and unsigned without; with SPECIAL in base 8 or 16 base 0 does too |
| Streams.Stream.Getc | src/_doscan.c:101 | reads the next character of the input, or EOF for ever after its end |
| Streams.Stream.Ungetc | src/_doscan.c:207-223 | all cases: EOF, not reading, the start of the stream, and a pushed-back character, written only if it differs |
| Streams.Stream.Unread | src/_doscan.c:207-223 | pushing back the character just read undoes the read and leaves the input as it was |
| Collect.Take | src/_doscan.c:277-279 | one character moves from the stream to the buffer; the next is read only while width is left |
| Collect.CollectDigits | src/_doscan.c:272-282 | the digit loop takes the longest run of digits that the width allows |
| Collect.CollectSign | src/_doscan.c:251-255 | a sign is taken if there is one |
| Collect.CollectPrefix | src/_doscan.c:257-270 | zero and x are taken when the base is 16, and settle the base of %i |
| Collect.OCollect | src/_doscan.c:232-289 | the buffer holds exactly the consumed input and a NUL, the stream stands right behind it, and the base is handed back; the buffer need only have room for what is collected |
| Collect.FitsIff | src/_doscan.c:272-287 | for every kind, input and width up to the size of the buffer: text and NUL fit if and only if the width is not the whole buffer or its first characters are not one integer text |
| Collect.CollectedIsConsumed | src/_doscan.c:478-494 | whatever was collected, for every kind and width, `string2long` with the base handed back consumes all of it, unless it is nothing or a bare sign |
| Collect.BareSignIsNoNumber | src/_doscan.c:479-482 | a bare sign, which `_doscan` turns away, is no number to `string2long` in any base |
| Collect.CollectedIsInteger | src/_doscan.c:232-289 | the collected text is sign, prefix and digits of the kind |
| Collect.CollectsLongest | src/_doscan.c:232-289 | no longer text within the width has that form |
| ScanRuns.TurnMovesOn | src/_doscan.c:390-647 | a turn that goes on leaves a format that does not depend on the input, never moves back, keeps all assignments, and counts a character too many exactly when a literal 0xFF meets the end of the input |
| Scansets.ScansetDenotes | src/_doscan.c:552-579 | a set written as optional ^, optional ], single characters, ranges and optional - denotes exactly the union of those, and parsing stops at the closing ] |
| Doscan.SkipSpace | src/_doscan.c:391-402 | white space of format and input are passed over together, and `nrchars` moves by as much as the position after the pushback |
| Doscan.ReadField | src/_doscan.c:510-546 | the longest run of the class within the width, the character behind it given back |
| Doscan.BuildTable | src/_doscan.c:552-579 | the table of 256 flags is the specified set, ranges, ^ and ] included |
| Doscan.FinishInt | src/_doscan.c:478-502 | the stored value, its size, and the turned-away bare sign |
| Doscan.ConvertInt | src/_doscan.c:464-502 | an integer conversion does what the specification says |
| Doscan.ConvertSet | src/_doscan.c:547-607 | the same for a scanset, with its early returns |
| Doscan.ReadDirective | src/_doscan.c:421-437 | assignment suppression, width and size as specified; the width wraps at 32 bits |
| Doscan.Convert | src/_doscan.c:449-643 | the switch, each case and the unknown one |
| Doscan.DoTurn | src/_doscan.c:390-647 | one turn: result, assignments, `nrchars`, and a stream that still holds the original input at the new position |
| Doscan.Scanf | src/_doscan.c:368-649 | with the 512 cells of `inp_buf`, `_doscan` returns and stores what the specification says, and the stream holds the unchanged input at the specified position |
| ScanRuns.LiteralIsConsumed | src/_doscan.c:405-420 | a literal consumes one character if there is one, whether it matches or not |
| ScanRuns.BufferSuffices | src/_doscan.c:474-478 | the 512 cells suffice for every run when the input is shorter than 512 characters or every integer directive has a width below 512 |
| ScanRuns.BufferOverrun | src/_doscan.c:272-287 | 512 digits under %d do not fit |
| ScanRuns.CountIsPositionIff | src/_doscan.c:405-461 | for every format, input and number of turns, the count that %n stores is the position in the input if and only if no literal 0xFF has met its end |
| ScanRuns.CountIsPosition | src/_doscan.c:405-461 | a format without a character 0xFF keeps count and position equal in every state of every run |
| ScanRuns.CountOffAtEnd | src/_doscan.c:405-461 | on an empty input 0xFF %n stores 1 |
| ScanCounts.TurnIsGood | src/_doscan.c:390-647 | every turn keeps: `done` counts the assignments other than %n, and before the first conversion there are none |
| ScanCounts.ReturnsTheCount | src/_doscan.c:644-648 | for every format and input the result is the number of assignments other than %n, or EOF with none made, and no more than the input is consumed |
| ScanFields.DirectiveIsRead | src/_doscan.c:421-437 | '*', a width as a numeral, modulo 2^32, and a size are read as what they denote, in front of any conversion character |
| ScanFields.SetTakes | src/_doscan.c:547-607 | in every state: %[ with any written set, inverted or not, takes and stores the longest piece of characters of the set, up to the width; if the first is none it takes nothing and ends the scan |
| ScanFields.ScanSet | src/_doscan.c:547-607 | a format that is one such directive: that piece and 1, or nothing and 0, or EOF for an empty input |
| ScanFields.StringTakes | src/_doscan.c:526-546 | %s passes over white space and takes the longest word, up to the width |
| ScanFields.CharsTaken | src/_doscan.c:503-525 | %c takes as many characters as its width says, one without a width, blanks included |
| ScanFields.IntegerTakes | src/_doscan.c:464-502 | every integer conversion takes the longest integer text of its kind and stores its C99 value in its base, saturated, cut to 16 bits for h; a bare sign ends the scan |
| ScanFields.CountTaken | src/_doscan.c:454-463 | %n consumes nothing and stores the count |
| ScanFields.LiteralTaken | src/_doscan.c:403-420 | a literal takes the same character; another one ends the scan behind it |
| ScanFields.BlanksTaken | src/_doscan.c:391-402 | white space of the format passes over any white space of the input |
| ScanFields.EndTaken | src/_doscan.c:644-648 | the result at the end of the format, and when it is EOF |
| FormatRoundTrip.FormatPrints | src/printf.c:154-297 | a format made of pieces prints the texts of the pieces one after the other |
| FormatRoundTrip.NumberIsCollected | src/_doscan.c:232-289 | `o_collect` takes a printed number whole and nothing behind it |
| FormatRoundTrip.NumberIsConverted | src/_doscan.c:490-500 | and it is converted to the printed word, with base 0 for %i |
| FormatRoundTrip.StripFacts | src/_doscan.c:391-402 | white space of the format and of the printed text are skipped in step |
| FormatRoundTrip.ScanPieces | src/_doscan.c:390-648 | the loop of `_doscan` on the printed text of any list of pieces |
| FormatRoundTrip.PrintThenScan | src/_doscan.c:368-649 | for every format of %d %i %u %o %X %b %s, literals and white space that keeps them apart, and all arguments, scanning the output with the same format stores exactly the arguments, reads all of it, returns their number and never fills the number buffer |
| LowerHex.LowerHexScansBackIff | src/_doscan.c:7 | %x scans back what %x printed if and only if no hexadecimal digit of the number is a letter |
| Paging.MacrosAreDivisions | include/memory.h:35-39 | the bit expressions are the divisions used here, and the three parts of an address make it up again |
| Paging.IndicesArePage | include/memory.h:35-39 | the two indices together are the page number, one to one |
| Paging.RunConserves | src/memory.c:35-86 | over every run of alloc_page, free_page of held frames and map, no frame has two owners and none is lost or made up |
| Paging.FreeNeverOverflows | src/memory.c:43-48 | the assertion of free_page holds for every frame that is held |
| Paging.FlagsLeaveFrame | src/memory.c:86 | an entry gives its frame back whatever its flags, and is zero only for frame 0 without flags |
| Paging.EntryWord | src/memory.c:86 | the bitwise or of frame and flags is their sum when the flags are below 4096 |
| Paging.Memory.AllocPage | src/memory.c:35-41 | the top frame changes hands; no translation changes |
| Paging.Memory.FreePage | src/memory.c:43-48 | the frame goes back on the stack; no translation changes |
| Paging.Memory.AttachTable | src/memory.c:77-78 | a missing table is taken from the frame stack, and no other directory entry changes |
| Paging.Memory.NewTable | src/memory.c:76-81 | it is cleared before use, so no translation changes |
| Paging.Memory.EnsureTable | src/memory.c:75-84 | the table is there afterwards; no translation changes |
| Paging.Memory.Map | src/memory.c:70-89 | exactly the one entry becomes the masked frame or-ed with the flags, whatever they are, and at most one frame goes to a table; with flags from 1 to 4095 the translation changes for exactly the one page |
| Paging.Memory.Unmap | src/memory.c:91-107 | exactly the one page leaves the translation |
| Paging.Memory.GetMapping | src/memory.c:109-128 | finds a page if and only if the translation has it, and its frame |
| Paging.Memory.InitVmm | src/memory.c:50-68 | afterwards page 0xC0000 + n is translated to frame n for every n but 0, no other page is translated, and ownership is sound |
| Paging.Memory.WindowTranslates | src/memory.c:54-61 | the table entries amount to that translation |
| HeapSpec.MallocKeepsTiling | src/memlib.c:9-57 | every kmalloc keeps: blocks tile the heap, no two neighbours are free, the last is in use |
| HeapSpec.FreeKeepsTiling | src/memlib.c:61-91 | every kfree keeps it |
| HeapSpec.MallocAddsOne | src/memlib.c:9-57 | exactly one block becomes live, of the size asked for at least; all others stay in place |
| HeapSpec.FreeRemovesOne | src/memlib.c:61-84 | exactly the freed block stops being live |
| HeapSpec.LiveAreDisjoint | src/memlib.c:33-56 | blocks do not overlap |
| HeapSpec.FreeUndoesMalloc | src/memlib.c:61-91 | freeing what was just allocated restores the block list exactly, split, reused or appended |
| HeapSpec.RunKeepsTiling | src/memlib.c:9-91 | tiling over every run, and a live block that is not freed is unmoved at its end |
| HeapPages.GrowKeeps | src/memlib.c:41-44 | growing conserves frames, takes none of others, and ends at the page behind the target |
| HeapPages.ShrinkKeeps | src/memlib.c:93-99 | shrinking keeps exactly the pages that start below the new end |
| HeapPages.MallocKeepsConsistent | src/memlib.c:33-56 | kmalloc keeps blocks and pages in agreement |
| HeapPages.FreeKeepsConsistent | src/memlib.c:61-99 | kfree gives back exactly the frames that hold no byte of a block any more |
| HeapPages.ByteIsBacked | src/memlib.c:41-44 | every byte of every block lies in a mapped page with a frame of its own |
| HeapPages.FreeUndoesMallocPages | src/memlib.c:93-99 | allocating and freeing again restores the pages, each with its frame |
| HeapPages.RunKeepsAccounting | src/memlib.c:9-99 | over every run the mapped heap pages are precisely those below the heap end, and frames are conserved |
| HeapPages.TopNeverWraps | src/memlib.c:41 | `mm_top` stays at or below 0xFFFFF000, because there are fewer frames than pages above V_MM_START |
| HeapPages.WrappedTarget | src/memlib.c:41-44 | when the 32-bit sum at line 41 wraps, the loop makes no turn and no assertion fires |
| HeapPages.AppendBackedIff | src/memlib.c:10-44 | for every size, with the sums at lines 10 and 41 on words, where nothing fits and no assertion fires: every byte of the appended block has a page if and only if heap end, size and header together stay below 2^32 |
| HeapPages.WrapFailsOnExample | src/memlib.c:41-44 | kmalloc(0x1FFFFFF4) on the empty heap without a frame: no assertion fires, and the block has no page |
| MixedRuns.ActionKeeps | src/memory.c:35-86 | kmalloc, kfree, and alloc_page, free_page and map of others each keep blocks, pages and frames in agreement, and the frames of others change by their own calls only |
| MixedRuns.MixedRunConserves | src/memory.c:35-86 | over every run that mixes them the heap pages are exact, no frame has two owners, and none is lost or made up |
| MixedRuns.BytesKeepTheirFrames | src/memlib.c:33-56 | over every mixed run a block that is not freed is unmoved and every byte of it keeps its frame, which no other page, no one else and not the free stack has |
| MixedRuns.OnlyAppends | src/memlib.c:33-56 | in a mixed run without kfree every block is in use and kmalloc appends, so only lines that need no repair are taken |
| Sharing.Start | src/memory.c:50-68 | init_vmm leaves what the empty heap needs, and the two together are a start of the mixed runs |
| Sharing.OthersTake | src/memory.c:35-41 | an alloc_page by others keeps the heap valid and is the action of the mixed runs |
| Sharing.OthersGive | src/memory.c:43-48 | the same for free_page of a frame that others hold |
| Sharing.OthersMap | src/memory.c:70-89 | the same for map of a page below the heap |
| Sharing.HeapTakes | src/memlib.c:9-57 | kmalloc is the action of the heap, for every request the frame stack can meet in full |
| Sharing.HeapGives | src/memlib.c:61-100 | so is kfree |
| Links.LinkJoined | src/memlib.c:65-79 | replacing blocks by one keeps prev and next inverse when their neighbours are redirected |
| Links.LinkSplit | src/memlib.c:17-25 | the same for a split |
| Links.LinkAppended | src/memlib.c:46-54 | the same for a block behind the last |
| Links.LinkCut | src/memlib.c:86-91 | the same for cutting the last block off |
| Memlib.Heap.FindFit | src/memlib.c:12-31 | the walk finds the first free block that is large enough, or the end of the list |
| Memlib.Heap.SplitBlock | src/memlib.c:17-25 | the headers after a split represent the intended list (two repairs) |
| Memlib.Heap.GrowTo | src/memlib.c:41-44 | pages and tables grow together |
| Memlib.Heap.ShrinkTo | src/memlib.c:93-99 | pages and tables shrink together (one repair) |
| Memlib.Heap.AppendBlock | src/memlib.c:46-54 | the headers after appending, as written |
| Memlib.Heap.Extend | src/memlib.c:33-54 | where nothing fits: the block is entered with its length modulo 2^31, and pages are added up to the sum modulo 2^32 |
| Memlib.Heap.Kmalloc | src/memlib.c:9-57 | headers, page tables, frame stack and `mm_top` after kmalloc are those of the specification, and the result points behind the header, whenever neither 32-bit sum wraps; where one wraps, the block that is appended, its length modulo 2^31 and the pages that are added |
| Memlib.SizeFits | src/memlib.c:10-41 | for a request that the frame stack can meet in full neither sum wraps |
| Memlib.Heap.Coalesce | src/memlib.c:63-79 | the freed block is joined with its free neighbours, links and lengths included |
| Memlib.Heap.FreeMemory | src/memlib.c:86-100 | the last block leaves the list and its pages go back |
| Memlib.Heap.Kfree | src/memlib.c:61-84 | headers, page tables, frame stack and `mm_top` after kfree are those of the specification |
| Departures.SplitOverwritesSuccessor | src/memlib.c:18-24 | as written, a split marks the successor free and makes it point to itself |
| Departures.TakeAsWrittenIff | src/memlib.c:16-26 | as written, the list is the intended one if and only if nothing is split |
| Departures.SplitNeedsPrev | src/memlib.c:19-23 | without the `prev` of the successor no split leaves inverse links |
| Departures.SplitFailsOnExample | src/memlib.c:17-25 | three blocks and a request for 20 bytes on which the list is destroyed |
| FreeDepartures.FreeAsWrittenNeverCoalesces | src/memlib.c:62-79 | as written, the headers never are those of the intended list, whichever block is freed and whatever record stands at the address taken for its header, where headers are records that do not overlap; in bytes that address lies 4 bytes inside a real header when the preceding block has length 136 |
| FreeDepartures.FreesThePrecedingBlock | src/memlib.c:62-63 | as written, the preceding block is freed instead when it is 132 bytes long, and the block that was meant stays in use |
| FreeDepartures.NodeAsWrittenLands | src/memlib.c:62 | the address taken for the header lies below the heap or inside an earlier block |
| FreeDepartures.MergeAsWrittenIff | src/memlib.c:73-79 | as written, and with the header found rightly, merging backwards is right if and only if there is nothing to merge |
| FreeDepartures.TopPageIsNeverMapped | src/memlib.c:96-97 | the page that is looked up as written is never mapped, so the first lookup fails |
| FreeDepartures.FramesAsWritten | src/memlib.c:93-99 | as written, the loop pushes the uninitialised word first and then the frames of all pages but the lowest, which stays mapped behind the heap |
| FreeDepartures.ShrinkAsWrittenIff | src/memlib.c:93-99 | as written, frames and pages are sound afterwards if and only if there was nothing to give back |
| FreeDepartures.FreeFailsOnExample | src/memlib.c:62-63 | two blocks on which freeing the second frees the first |
| FreeDepartures.MergeFailsOnExample | src/memlib.c:73-79 | three blocks on which the merge leaves a link into the middle of a block |
| FreeDepartures.ShrinkFailsOnExample | src/memlib.c:93-99 | a heap of one page whose frame is lost |
| Scheduler.RunList.InitProcSchedule | src/process.c:12-21 | process 0 is a ring of its own |
| Scheduler.RunList.Schedule | src/process.c:23-27 | the next process of the ring runs, one tick of the clock; the ring is unchanged |
| Scheduler.RunList.FindTail | src/process.c:49-52 | the walk ends at the last process |
| Scheduler.RunList.InitThread | src/process.c:29-56 | the new process gets the next pid and stands at the end of the ring, one insertion of the clock |
| Interleaving.InitKeepsInv | src/process.c:12-21 | the state that init_proc_schedule leaves satisfies the invariant of the interleaved runs |
| Interleaving.StepKeepsInv | src/process.c:29-56 | with ticks between any two statements, the published processes form one ring with the running one in it |
| Interleaving.RunKeepsRing | src/process.c:29-56 | over every interleaving that holds and processes only ever join at the end, in the single store of line 53 |
| Interleaving.StepIsClock | src/process.c:23-53 | a timer tick, wherever in init_thread it comes, makes the successor in the ring run; only the store of line 53 adds a process; no other statement changes either |
| Interleaving.StepsCount | src/process.c:49-52 | each statement brings the end of init_thread one nearer, and no tick moves it away |
| Interleaving.InsertionTerminates | src/process.c:47-55 | the tail walk terminates whatever the ticks do |
| Interleaving.RunIsClockRun | src/process.c:23-56 | over every interleaved run, who runs and how often is that of the ticks and insertions alone |
| Interleaving.TicksAdvanceRing | src/process.c:23-27 | over every interleaved run without an insertion, k ticks advance `cur_proc` by k modulo n in the ring |
| Interleaving.EachProcessRunsOnce | src/process.c:23-27 | n ticks of such a run make every process the running one exactly once |
| Interleaving.WaitIsBounded | src/process.c:23-53 | over every interleaved run a process runs before more ticks have passed than its distance from `cur_proc` and the number of insertions together |
| ContextSwitch.Cpu.SaveContext | src/proc_s.s:4-13 | the six registers are stored in the record of the process that is left |
| ContextSwitch.Cpu.LoadContext | src/proc_s.s:15-26 | the six registers and the return address come from the process that is entered |
| ContextSwitch.Cpu.SwitchTo | src/proc_s.s:3-26 | the whole switch |
| ContextSwitch.Cpu.PrepareThread | src/process.c:32-47 | a block that lets the first switch enter `fn`, and no other memory is touched |
| ContextSwitch.StepKeepsValid | src/proc_s.s:3-26 | every event keeps the blocks apart and every parked process returnable |
| ContextSwitch.StepKeepsParked | src/proc_s.s:3-26 | a parked process stays as it is until it is entered |
| ContextSwitch.EnterRestores | src/proc_s.s:15-26 | entering a parked process restores its registers and its stack |
| ContextSwitch.ContextIsRestored | src/proc_s.s:3-26 | over every run of switches, creations and arbitrary work, a resumed process sees esp, ebp, ebx, esi, edi and eflags of its own last switch-out, goes on behind its own call, and finds its stack unchanged |
| ContextSwitch.ThreadStarts | src/process.c:39-46 | over every run the first switch into a new thread enters `fn` with return address `thread_exit` and first argument `arg` |
| Console.BitsAreArithmetic | src/monitor.c:63-76 | attribute, cell word and tab column as bit expressions equal the arithmetic used here |
| Console.TabStops | src/monitor.c:68-83 | a tab goes to the next multiple of 8 and writes nothing; from column 72 on it starts a new row |
| Console.WriteKeepsValid | src/monitor.c:58-88 | for every text the cursor stays within 80 columns, rows are only added, and rows scrolled out are never written again |
| Console.WriteFills | src/monitor.c:75-78 | a text of printable characters fills the cells from the cursor on with code + back * 4096 + fore * 256, across the ends of rows, and no other cell changes |
| Console.ControlsMove | src/monitor.c:66-74 | newline, carriage return, backspace and the other control characters move the cursor as named and write nothing |
| Console.TextIsShown | src/monitor.c:23-88 | in the 2000 cells of the window: the text from the cursor on, everything moved up by the rows it takes to keep the cursor in the last row, and blanks below |
| Console.Monitor.Clear | src/monitor.c:43-56 | the window shows the top of an empty page |
| Console.Monitor.ScreenScroll | src/monitor.c:23-41 | the window moves down one row when the cursor has left it |
| Console.Monitor.PutcColor | src/monitor.c:58-88 | after every character video memory equals the current 25 rows of the endless page that gets the same character and never scrolls, with the cursor inside |
| Console.Monitor.WriteColor | src/monitor.c:97-102 | the same for a text, and for printable characters the contents of video memory cell by cell, with the old contents moved up |
| Console.Monitor.WriteDec | src/monitor.c:126-152 | shows the decimal numeral |
| Console.Monitor.WriteHex | src/monitor.c:104-124 | shows 0x and the digits without leading zeros |
| Console.DecAgrees | src/monitor.c:126-152 | for every number that is what %u formats |
| Console.HexAgreesIff | src/monitor.c:104-124 | that is what %#x formats if and only if the number is not zero |
| Keyboard.Driver.DoSelf | src/keyboard.c:174-223 | appends the character that table, shift, caps lock, ctrl and alt select, or nothing |
| Keyboard.Driver.Caps | src/keyboard.c:290-298 | lock bit and LED toggle together, once per press |
| Keyboard.Driver.Switch | src/keyboard.c:226-317 | the modifier, lock and LED functions, case by case |
| Keyboard.OthersStay | src/keyboard.c:226-317 | each bit of `mode` and each LED is changed by its own key functions only, left and right told apart by the prefix |
| Keyboard.Driver.KeyboardHandler | src/keyboard.c:155-168 | every scan code: modifiers, prefix state and character, with any bytes behind the tables |
| Keyboard.KeyCodes | src/keyboard.c:76-141 | which scan codes reach the modifier functions |
| Keyboard.ModeReflectsHistory | src/keyboard.c:226-304 | for every scan-code history each modifier bit says whether the last event of its key was a press, left and right told apart by the prefix; caps lock toggles once per press despite repeats and equals LED bit 2 |
| Keyboard.LetterTables | src/keyboard.c:24-41 | the two tables hold each letter in its two cases |
| Keyboard.LetterCase | src/keyboard.c:193-206 | without ctrl and alt a letter is upper case if and only if one of shift and caps lock is in force |
| Keyboard.ControlCode | src/keyboard.c:193-211 | ctrl with a letter yields its control code 1 to 26, plus 0x20 if and only if both shift and caps lock are in force |
| Keyboard.AltMarks | src/keyboard.c:212-215 | the left alt key adds the top bit to what would be typed without it |
| Keyboard.SpaceBar | src/keyboard.c:24-41 | the space bar yields a space if and only if no shift key is down |
| Legends.KeysTypeLegends | src/keyboard.c:24-41 | over every history without ctrl and alt each key of the four rows types the one of its two US legends that shift selects; the keypad slash types nothing |
| Legends.EveryCharacterHasAKey | src/keyboard.c:24-41 | every printable ASCII character but the space is a legend of some key |
| Legends.RightAltSelects | src/keyboard.c:45-50 | with the right alt key alone a key types its alt legend or nothing |

## Left out

- FormatRoundTrip.PrintThenScan: is about conversions without flags, width and precision, and words of at most 65535 characters, which is where a %s stops; %x is the subject of module LowerHex, and %c and %p are not among its conversions.
- Floating-point conversions, which NOFLOAT compiles out.
- The mechanics of variable arguments: arguments are a sequence, and a missing or wrong one reads as zero or as the empty text.
- Integer overflow of a field width or a precision beyond 31 bits in a format, and buffers of more than 1023 characters.
- Characters beyond 127 inside a scanset, with which the C code would index outside its table.
- Memlib.Heap.Kmalloc: requires that the frame stack suffices for the pages of the loop, because alloc_page stops with an assertion otherwise. A size from 0xFFFFFFF4 on, for which line 10 wraps, is taken only where no free block exists: the repaired split would cut a block shorter than its own header. After a wrapped sum the heap is not valid any more, and what later calls do on it is not modelled.
- Memlib.Heap.Kfree: takes an address that kmalloc gave out and that has not been freed, because the C code trusts its caller.
- Headers are a map from addresses to records, not bytes in the frames; that the addresses are backed by frames is proved beside them.
- Paging.Memory.Map: requires a frame on the stack when a table is missing, because alloc_page stops with an assertion otherwise.
- Doscan.Scanf: requires that no number fills `inp_buf`, because C gives no meaning to the write behind it.
- FreeDepartures.FreeAsWrittenNeverCoalesces: ends before line 81, because what follows depends on the word found at the wrong address; headers are records, so that a wrong address 4 bytes inside a real header, behind a block of length 136, counts as one of its own.
- `init_page` and the memory map of the boot loader: the stack starts with distinct, aligned frames below 0x20000000.
- `invlpg`, cr3, port input and output, the hardware cursor, and the effect of the LEDs.
- Pages with more than one directory: only the kernel's own is modelled.
- Interleaving.InsertionTerminates: one init_thread at a time, because the code has no locks and one thread runs it; each C statement is one step.
- The address of a new thread's block is a parameter of its creation, apart from all others; that kmalloc gives out disjoint blocks is proved for the heap.
- ContextSwitch.Step: whatever a running process does to its own block and to memory outside all blocks is allowed, but it does not write into the blocks of others.
- The cursor keys, whose handler has no effect, the function keys, which call demos, and the reset chord of the keyboard.
- `elf.c`, `debug.c`, `gdt.c`, the interrupt table, `boot.s`, `init.c`, `test.c`, `file.c`, `buffer.c`, `scanf.c` and `string.c`: start-up, demos or members that are easy.
