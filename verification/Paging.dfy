/** The frame stack and the two-level page tables of src/memory.c and include/memory.h
    (32-bit paging, Intel SDM volume 3A, section 4.3).

    Physical memory is an array of frames of 1024 words; the kernel reaches the frame at
    physical address p through the window address p + PAGE_OFFSET. */
module Paging {
  import opened Numerals

  const PAGE_SIZE := 4096
  const TABLE_SIZE := 1024
  /** PAGE_MAX_SIZE: the number of frames below MEMORY_MAX_SIZE. */
  const FRAME_COUNT := 0x2_0000
  const PAGE_OFFSET := 0xC000_0000
  const PAGE_COUNT := 0x10_0000
  const PRESENT_WRITE := 3
  /** The kernel's static tables and the directory index of the first. */
  const KERNEL_TABLES := 128
  const WINDOW_INDEX := PAGE_OFFSET / 0x40_0000
  const WINDOW_PAGE := PAGE_OFFSET / PAGE_SIZE

  // -------------------------------------------------------- Address arithmetic

  /** The macros of include/memory.h:27-39 on words. */
  function PgdIndex(va: uint32): nat {
    va / 0x40_0000 % TABLE_SIZE
  }

  function PteIndex(va: uint32): nat {
    va / PAGE_SIZE % TABLE_SIZE
  }

  function Masked(x: uint32): uint32 {
    x / PAGE_SIZE * PAGE_SIZE
  }

  function PageOf(va: uint32): nat {
    va / PAGE_SIZE
  }

  /** The bit operations of the macros are these divisions, and `(pa & PAGE_MASK) | flags`
      is a sum when the flags fit the page offset. */
  lemma MacrosAreDivisions(x: bv32, flags: bv32)
    requires flags < 4096
    ensures (x >> 22) & 0x3FF == x / 0x400000 % 1024
    ensures (x >> 12) & 0x3FF == x / 4096 % 1024
    ensures x & 0xFFFFF000 == x / 4096 * 4096
    ensures (x & 0xFFFFF000) | flags == x / 4096 * 4096 + flags
    ensures ((((x >> 22) & 0x3FF) << 22) | (((x >> 12) & 0x3FF) << 12) | (x & 0xFFF)) == x
  {}

  /** `a | b` on words, bit by bit. */
  function Or(a: nat, b: nat): nat
    decreases a + b
  {
    if a == 0 && b == 0 then 0 else 2 * Or(a / 2, b / 2) + if a % 2 == 1 || b % 2 == 1 then 1 else 0
  }

  lemma {:induction false} OrFits(a: nat, b: nat, k: nat)
    requires a < Pow2(k) && b < Pow2(k)
    ensures Or(a, b) < Pow2(k)
    decreases k
  {
    if k > 0 {
      OrFits(a / 2, b / 2, k - 1);
    }
  }

  lemma {:induction false} OrIsSum(q: nat, b: nat, k: nat)
    requires b < Pow2(k)
    ensures Or(q * Pow2(k), b) == q * Pow2(k) + b
    decreases k
  {
    if k == 0 {
      OrNothing(q);
    } else {
      var p := q * Pow2(k - 1);
      assert q * Pow2(k) == 2 * p;
      OrIsSum(q, b / 2, k - 1);
    }
  }

  lemma {:induction false} OrNothing(a: nat)
    ensures Or(a, 0) == a
    decreases a
  {
    if a > 0 {
      OrNothing(a / 2);
    }
  }

  /** The word `(pa & PAGE_MASK) | flags` is a word, and a sum when the flags fit the offset. */
  lemma EntryWord(pa: uint32, flags: uint32)
    ensures Or(Masked(pa), flags) < TWO_TO_THE_32
    ensures flags < PAGE_SIZE ==> Or(Masked(pa), flags) == Masked(pa) + flags
  {
    Pow2Of32();
    OrFits(Masked(pa), flags, 32);
    if flags < PAGE_SIZE {
      assert Pow2(12) == PAGE_SIZE by { assert Pow2(6) == 64; }
      OrIsSum(pa / PAGE_SIZE, flags, 12);
    }
  }

  /** An entry gives its frame back whatever its flags; it is not zero when they are not. */
  lemma FlagsLeaveFrame(pa: uint32, flags: nat)
    requires flags < PAGE_SIZE
    ensures Masked(pa) + flags < TWO_TO_THE_32 && Masked(Masked(pa) + flags) == Masked(pa)
    ensures Masked(pa) + flags == 0 <==> Masked(pa) == 0 && flags == 0
  {}

  /** The two indices together are the page number, so distinct pages use distinct entries. */
  lemma IndicesArePage(va: uint32)
    ensures PgdIndex(va) < TABLE_SIZE && PteIndex(va) < TABLE_SIZE
    ensures PageOf(va) == PgdIndex(va) * TABLE_SIZE + PteIndex(va) < PAGE_COUNT
    ensures PgdIndex(va) == PageOf(va) / TABLE_SIZE && PteIndex(va) == PageOf(va) % TABLE_SIZE
    ensures Masked(va) == PageOf(va) * PAGE_SIZE
  {}

  // ------------------------------------------------------------ Frame ownership

  /** Who owns which frame, by physical address: the free stack, the page tables by directory
      index, and the frames handed out for data. */
  datatype Frames = Frames(free: seq<nat>, tables: map<nat, nat>, data: set<nat>)

  ghost function SetOf(s: seq<nat>): set<nat> {
    set f | f in s
  }

  ghost function Total(s: Frames): set<nat> {
    SetOf(s.free) + s.tables.Values + s.data
  }

  /** A frame that the stack may hold: aligned, not the null one, below MEMORY_MAX_SIZE. */
  predicate IsFrame(f: nat) {
    0 < f < FRAME_COUNT * PAGE_SIZE && f % PAGE_SIZE == 0
  }

  /** No frame has two owners or two places. */
  ghost predicate Disjoint(s: Frames) {
    && (forall i, j :: 0 <= i < j < |s.free| ==> s.free[i] != s.free[j])
    && (forall i, j :: i in s.tables && j in s.tables && i != j ==> s.tables[i] != s.tables[j])
    && (forall f :: f in s.free ==> f !in s.tables.Values && f !in s.data)
    && s.tables.Values !! s.data
    && (forall f :: f in Total(s) ==> IsFrame(f))
  }

  function Last(s: Frames): nat
    requires s.free != []
  {
    s.free[|s.free| - 1]
  }

  function AllocStep(s: Frames): Frames
    requires s.free != []
  {
    s.(free := s.free[..|s.free| - 1], data := s.data + {Last(s)})
  }

  function FreeStep(s: Frames, f: nat): Frames {
    s.(free := s.free + [f], data := s.data - {f})
  }

  /** `map` takes a frame for a missing table. */
  function TableStep(s: Frames, idx: nat): Frames
    requires idx in s.tables || s.free != []
  {
    if idx in s.tables then s
    else s.(free := s.free[..|s.free| - 1], tables := s.tables[idx := Last(s)])
  }

  lemma FreeSplit(s: Frames)
    requires s.free != [] && Disjoint(s)
    ensures var rest := s.free[..|s.free| - 1];
            && Last(s) !in rest
            && forall f :: f in s.free <==> f in rest || f == Last(s)
  {
    var rest := s.free[..|s.free| - 1];
    assert s.free == rest + [Last(s)];
  }

  lemma AllocConserves(s: Frames)
    requires Disjoint(s) && s.free != []
    ensures Disjoint(AllocStep(s)) && Total(AllocStep(s)) == Total(s)
    ensures Last(s) !in s.data && IsFrame(Last(s))
  {
    FreeSplit(s);
    assert Last(s) in SetOf(s.free);
  }

  lemma FreeConserves(s: Frames, f: nat)
    requires Disjoint(s) && f in s.data
    ensures Disjoint(FreeStep(s, f)) && Total(FreeStep(s, f)) == Total(s)
  {
    var t := FreeStep(s, f);
    assert f !in s.free;
    assert forall g :: g in t.free <==> g in s.free || g == f;
  }

  lemma TableConserves(s: Frames, idx: nat)
    requires Disjoint(s) && (idx in s.tables || s.free != [])
    ensures Disjoint(TableStep(s, idx)) && Total(TableStep(s, idx)) == Total(s)
  {
    if idx !in s.tables {
      FreeSplit(s);
      var t := TableStep(s, idx);
      assert Last(s) in SetOf(s.free);
      assert t.tables[idx] == Last(s);
      assert forall i :: i in s.tables ==> t.tables[i] == s.tables[i];
      assert t.tables.Values == s.tables.Values + {Last(s)};
    }
  }

  /** One call from outside: of alloc_page, of free_page with a frame that is held, or of map. */
  datatype Op = Alloc | Free(f: nat) | Map(idx: nat)

  predicate Enabled(s: Frames, op: Op) {
    match op
    case Alloc => s.free != []
    case Free(f) => f in s.data
    case Map(idx) => idx in s.tables || s.free != []
  }

  function Apply(s: Frames, op: Op): Frames
    requires Enabled(s, op)
  {
    match op
    case Alloc => AllocStep(s)
    case Free(f) => FreeStep(s, f)
    case Map(idx) => TableStep(s, idx)
  }

  ghost predicate IsRun(s: Frames, ops: seq<Op>)
    decreases |ops|
  {
    ops == [] || (Enabled(s, ops[0]) && IsRun(Apply(s, ops[0]), ops[1..]))
  }

  ghost function After(s: Frames, ops: seq<Op>): Frames
    requires IsRun(s, ops)
    decreases |ops|
  {
    if ops == [] then s else After(Apply(s, ops[0]), ops[1..])
  }

  /** Over every run, frames have one owner each and none is lost or made up. */
  lemma {:induction false} RunConserves(s: Frames, ops: seq<Op>)
    requires Disjoint(s) && IsRun(s, ops)
    ensures Disjoint(After(s, ops)) && Total(After(s, ops)) == Total(s)
    decreases |ops|
  {
    if ops != [] {
      match ops[0]
      case Alloc => AllocConserves(s);
      case Free(f) => FreeConserves(s, f);
      case Map(idx) => TableConserves(s, idx);
    }
    if ops != [] {
      RunConserves(Apply(s, ops[0]), ops[1..]);
    }
  }

  /** The stack never overflows: the assertion of `free_page` (src/memory.c:44) holds for
      every frame that is given back. */
  lemma FreeNeverOverflows(s: Frames, f: nat)
    requires Disjoint(s) && f in s.data
    ensures |s.free| + 1 < FRAME_COUNT
  {
    FrameRange(FRAME_COUNT);
    SeqAsSet(s.free);
    forall g | g in SetOf(s.free) + {f} ensures g in FramesBelow(FRAME_COUNT) {
      assert g in Total(s);
    }
    SubsetSize(SetOf(s.free) + {f}, FramesBelow(FRAME_COUNT));
  }

  ghost function FramesBelow(n: nat): set<nat> {
    set g: nat | g < n * PAGE_SIZE && IsFrame(g)
  }

  lemma {:induction false} FrameRange(n: nat)
    requires 1 <= n <= FRAME_COUNT
    ensures |FramesBelow(n)| == n - 1
    decreases n
  {
    if n == 1 {
      assert FramesBelow(n) == {};
    } else {
      FrameRange(n - 1);
      assert FramesBelow(n) == FramesBelow(n - 1) + {(n - 1) * PAGE_SIZE};
    }
  }

  lemma {:induction false} SeqAsSet(s: seq<nat>)
    requires forall i, j :: 0 <= i < j < |s| ==> s[i] != s[j]
    ensures |SetOf(s)| == |s|
    decreases |s|
  {
    if s == [] {
      assert SetOf(s) == {};
    } else {
      var t, last := s[..|s| - 1], s[|s| - 1];
      SeqAsSet(t);
      assert s == t + [last];
      assert last !in t;
      assert SetOf(s) == SetOf(t) + {last};
    }
  }

  lemma {:induction false} SubsetSize(a: set<nat>, b: set<nat>)
    requires a <= b
    ensures |a| <= |b|
    decreases |a|
  {
    if a != {} {
      var x :| x in a;
      SubsetSize(a - {x}, b - {x});
    }
  }

  // ------------------------------------------------------------- The code

  /** The tables that a page directory points at. */
  ghost function TablesOf(pgd: seq<uint32>): map<nat, nat> {
    map i: nat | i < |pgd| && Masked(pgd[i]) != 0 :: Masked(pgd[i])
  }

  /** The state of src/memory.c: the stack of free frames, the kernel page directory and
      physical memory. `data` records the frames that alloc_page has handed out. */
  class Memory {
    const stack: array<uint32>
    var top: nat
    const pgd: array<uint32>
    const phys: array2<uint32>
    ghost var data: set<nat>

    ghost predicate Shape()
      reads this
    {
      && stack.Length == FRAME_COUNT + 1 && top <= FRAME_COUNT
      && pgd.Length == TABLE_SIZE && pgd != stack
      && phys.Length0 == FRAME_COUNT && phys.Length1 == TABLE_SIZE
    }

    ghost function View(): Frames
      requires Shape()
      reads this, stack, pgd
    {
      Frames(stack[1..top + 1], TablesOf(pgd[..]), data)
    }

    ghost predicate Valid()
      reads this, stack, pgd
    {
      Shape() && Disjoint(View())
    }

    /** The table entry of a page, or 0 when its table is missing. */
    ghost function Entry(pn: nat): uint32
      requires Valid() && pn < PAGE_COUNT
      reads this, stack, pgd, phys
    {
      var table := Masked(pgd[pn / TABLE_SIZE]);
      if table == 0 then 0
      else
        TableIsFrame(pn / TABLE_SIZE);
        phys[table / PAGE_SIZE, pn % TABLE_SIZE]
    }

    /** The partial map from pages to frames that the tables stand for. */
    ghost function Translation(): map<nat, nat>
      requires Valid()
      reads this, stack, pgd, phys
    {
      map pn: nat | pn < PAGE_COUNT && Entry(pn) != 0 :: Masked(Entry(pn))
    }

    lemma TableIsFrame(i: nat)
      requires Valid() && i < TABLE_SIZE && Masked(pgd[i]) != 0
      ensures i in View().tables && IsFrame(Masked(pgd[i]))
    {
      assert View().tables[i] in Total(View());
    }

    /** Distinct directory entries lead to distinct frames of physical memory. */
    lemma TablesApart()
      requires Valid()
      ensures forall i: nat :: i < TABLE_SIZE ==> Masked(pgd[i]) / PAGE_SIZE < FRAME_COUNT
      ensures forall i: nat, j: nat :: i < TABLE_SIZE && j < TABLE_SIZE && i != j
                && Masked(pgd[i]) != 0 && Masked(pgd[j]) != 0
                ==> Masked(pgd[i]) / PAGE_SIZE != Masked(pgd[j]) / PAGE_SIZE
    {
      forall i: nat | i < TABLE_SIZE && Masked(pgd[i]) != 0
        ensures i in View().tables && IsFrame(Masked(pgd[i]))
      {
        TableIsFrame(i);
      }
      assert forall i: nat :: i in View().tables ==> View().tables[i] == Masked(pgd[i]);
    }

    /** `alloc_page`, src/memory.c:35-41. */
    method AllocPage() returns (page: uint32)
      requires Valid() && top != 0
      modifies this
      ensures Valid() && View() == AllocStep(old(View())) && page == Last(old(View()))
      ensures forall pn: nat :: pn < PAGE_COUNT ==> Entry(pn) == old(Entry(pn))
    {
      ghost var before := View();
      AllocConserves(before);
      page := stack[top];
      top := top - 1;
      data := data + {page};
      assert stack[1..top + 1] == before.free[..|before.free| - 1];
      assert View() == AllocStep(before);
    }

    /** `free_page`, src/memory.c:43-48, for a frame that is held. Its assertion cannot fire. */
    method FreePage(p: uint32)
      requires Valid() && p in data
      modifies this, stack
      ensures Valid() && View() == FreeStep(old(View()), p)
      ensures forall pn: nat :: pn < PAGE_COUNT ==> Entry(pn) == old(Entry(pn))
    {
      ghost var before := View();
      FreeNeverOverflows(before, p);
      FreeConserves(before, p);
      top := top + 1;
      stack[top] := p;
      data := data - {p};
      assert View() == FreeStep(before, p);
    }

    /** `memset(pte, 0, PAGE_SIZE)` through the window. */
    method ZeroFrame(frame: nat)
      requires Shape() && frame < FRAME_COUNT
      modifies phys
      ensures forall w :: 0 <= w < TABLE_SIZE ==> phys[frame, w] == 0
      ensures forall f, w :: 0 <= f < FRAME_COUNT && 0 <= w < TABLE_SIZE && f != frame ==> phys[f, w] == old(phys[f, w])
    {
      for i := 0 to TABLE_SIZE
        invariant forall w :: 0 <= w < i ==> phys[frame, w] == 0
        invariant forall f, w :: 0 <= f < FRAME_COUNT && 0 <= w < TABLE_SIZE && f != frame ==>
                    phys[f, w] == old(phys[f, w])
      {
        phys[frame, i] := 0;
      }
    }

    /** `pte = alloc_page(); pgd_now[pgd_idx] = pte | PAGE_PRESENT | PAGE_WRITE;` */
    method AttachTable(idx: nat) returns (table: uint32)
      requires Valid() && idx < TABLE_SIZE && idx !in View().tables && top != 0
      modifies this, pgd
      ensures Valid() && View() == TableStep(old(View()), idx)
      ensures table == Masked(pgd[idx]) != 0 && old(Masked(pgd[idx])) == 0
      ensures forall i :: 0 <= i < TABLE_SIZE && i != idx ==> pgd[i] == old(pgd[i])
    {
      hide Total, IsFrame, Disjoint;
      ghost var before := View();
      TableConserves(before, idx);
      AllocConserves(before);
      assert Masked(pgd[idx]) == 0;
      table := AllocPage();
      data := data - {table};
      pgd[idx] := table + PRESENT_WRITE;
      assert View() == TableStep(before, idx);
    }

    /** A new frame in the place of a missing table, cleared before it is used. */
    method NewTable(idx: nat) returns (table: uint32)
      requires Valid() && idx < TABLE_SIZE && idx !in View().tables && top != 0
      modifies this, pgd, phys
      ensures Valid() && View() == TableStep(old(View()), idx)
      ensures table == Masked(pgd[idx]) != 0
      ensures forall pn: nat :: pn < PAGE_COUNT ==> Entry(pn) == old(Entry(pn))
    {
      table := AttachTable(idx);
      TablesApart();
      hide Disjoint, TableStep, TablesOf;
      ZeroFrame(table / PAGE_SIZE);
    }

    /** The table behind a directory entry, taken from the stack and cleared if it is missing
        (src/memory.c:75-84). */
    method EnsureTable(idx: nat) returns (table: uint32)
      requires Valid() && idx < TABLE_SIZE && (idx in View().tables || top != 0)
      modifies this, pgd, phys
      ensures Valid() && View() == TableStep(old(View()), idx)
      ensures table == Masked(pgd[idx]) != 0
      ensures forall pn: nat :: pn < PAGE_COUNT ==> Entry(pn) == old(Entry(pn))
    {
      table := Masked(pgd[idx]);
      if table == 0 {
        table := NewTable(idx);
      }
    }

    /** `map`, src/memory.c:70-89. */
    method Map(va: uint32, pa: uint32, flags: uint32)
      requires Valid() && (PgdIndex(va) in View().tables || top != 0)
      modifies this, pgd, phys
      ensures Valid() && View() == TableStep(old(View()), PgdIndex(va))
      ensures forall pn: nat :: pn < PAGE_COUNT ==>
                Entry(pn) == if pn == PageOf(va) then Or(Masked(pa), flags) else old(Entry(pn))
      ensures flags < PAGE_SIZE ==> Entry(PageOf(va)) == Masked(pa) + flags
      ensures 0 < flags < PAGE_SIZE ==> Translation() == old(Translation())[PageOf(va) := Masked(pa)]
    {
      hide Disjoint, TableStep, Masked, Or, TablesOf, IsFrame;
      MapEntry(va, pa, flags);
      IndicesArePage(va);
      EntryWord(pa, flags);
      if flags < PAGE_SIZE {
        FlagsLeaveFrame(pa, flags);
      }
    }

    /** src/memory.c:70-89, on table entries. */
    method MapEntry(va: uint32, pa: uint32, flags: uint32)
      requires Valid() && (PgdIndex(va) in View().tables || top != 0)
      modifies this, pgd, phys
      ensures Valid() && View() == TableStep(old(View()), PgdIndex(va))
      ensures forall pn: nat :: pn < PAGE_COUNT ==>
                Entry(pn) == if pn == PageOf(va) then Or(Masked(pa), flags) else old(Entry(pn))
    {
      hide Disjoint, TableStep, Masked, Or, TablesOf, IsFrame;
      IndicesArePage(va);
      var table := EnsureTable(PgdIndex(va));
      EntryWord(pa, flags);
      SetEntry(table, va, Or(Masked(pa), flags));
    }

    /** `pte[pte_idx] = entry;` through the window. */
    method SetEntry(table: uint32, va: uint32, entry: uint32)
      requires Valid() && table != 0 && table == Masked(pgd[PgdIndex(va)])
      modifies phys
      ensures Valid() && View() == old(View())
      ensures forall pn: nat :: pn < PAGE_COUNT ==>
                Entry(pn) == if pn == PageOf(va) then entry else old(Entry(pn))
    {
      IndicesArePage(va);
      TablesApart();
      phys[table / PAGE_SIZE, PteIndex(va)] := entry;
      assert forall pn: nat :: pn < PAGE_COUNT ==>
          (pn == PageOf(va) <==> pn / TABLE_SIZE == PgdIndex(va) && pn % TABLE_SIZE == PteIndex(va));
    }

    /** `unmap`, src/memory.c:91-107. */
    method Unmap(va: uint32)
      requires Valid()
      modifies phys
      ensures Valid() && View() == old(View())
      ensures forall pn: nat :: pn < PAGE_COUNT ==>
                Entry(pn) == if pn == PageOf(va) then 0 else old(Entry(pn))
      ensures Translation() == old(Translation()) - {PageOf(va)}
    {
      IndicesArePage(va);
      var table := Masked(pgd[PgdIndex(va)]);
      if table == 0 {
        return;
      }
      SetEntry(table, va, 0);
    }

    /** `get_mapping`, src/memory.c:109-128; `wanted` says whether the caller gave a place
        for the address. */
    method GetMapping(va: uint32, wanted: bool) returns (found: bool, pa: uint32)
      requires Valid()
      ensures found <==> PageOf(va) in Translation() && wanted
      ensures found ==> pa == Translation()[PageOf(va)]
    {
      IndicesArePage(va);
      found, pa := false, 0;
      var table := Masked(pgd[PgdIndex(va)]);
      if table == 0 {
        return;
      }
      TableIsFrame(PgdIndex(va));
      var pte := phys[table / PAGE_SIZE, PteIndex(va)];
      if pte != 0 && wanted {
        found, pa := true, Masked(pte);
      }
    }

    /** `init_vmm`, src/memory.c:50-68: fills the static tables, which stand in the frames
        from number `k` on, so that the window maps all of physical memory except frame 0. */
    method InitVmm(k: nat)
      requires Shape() && data == {} && Disjoint(Frames(stack[1..top + 1], map[], {}))
      requires forall i :: 0 <= i < TABLE_SIZE ==> pgd[i] == 0
      requires 0 < k && k + KERNEL_TABLES <= FRAME_COUNT
      requires forall j, w :: k <= j < k + KERNEL_TABLES && 0 <= w < TABLE_SIZE ==> phys[j, w] == 0
      requires forall f :: f in stack[1..top + 1] ==> !(k <= f / PAGE_SIZE < k + KERNEL_TABLES)
      modifies pgd, phys
      ensures Valid() && View().free == old(stack[1..top + 1]) && View().data == {}
      ensures forall pn: nat :: pn < PAGE_COUNT ==>
                Entry(pn) == WindowWord(pn - WINDOW_PAGE)
      ensures forall pn :: pn in Translation() <==> 0xC_0000 < pn < 0xE_0000
      ensures forall pn :: pn in Translation() ==> Translation()[pn] == (pn - 0xC_0000) * 0x1000
    {
      for j := 0 to KERNEL_TABLES
        invariant forall i :: 0 <= i < TABLE_SIZE ==>
                    pgd[i] == if WINDOW_INDEX <= i < WINDOW_INDEX + j
                              then (k + i - WINDOW_INDEX) * PAGE_SIZE + PRESENT_WRITE else 0
        invariant forall f, w :: k <= f < k + KERNEL_TABLES && 0 <= w < TABLE_SIZE ==> phys[f, w] == 0
      {
        pgd[WINDOW_INDEX + j] := (k + j) * PAGE_SIZE + PRESENT_WRITE;
      }
      KernelTablesDisjoint(k);
      FillWindow(k);
      WindowEntries(k);
      WindowTranslates();
    }

    /** The window maps page 0xC0000 + n to frame n, for every n but 0. */
    lemma WindowTranslates()
      requires Valid() && forall pn: nat :: pn < PAGE_COUNT ==> Entry(pn) == WindowWord(pn - WINDOW_PAGE)
      ensures forall pn :: pn in Translation() <==> 0xC_0000 < pn < 0xE_0000
      ensures forall pn :: pn in Translation() ==> Translation()[pn] == (pn - 0xC_0000) * 0x1000
    {
      hide Entry, Disjoint, TablesOf, Masked, WindowWord;
      forall pn: nat | pn < PAGE_COUNT
        ensures Entry(pn) != 0 <==> 0xC_0000 < pn < 0xE_0000
        ensures Entry(pn) != 0 ==> Masked(Entry(pn)) == (pn - 0xC_0000) * 0x1000
      {
        WindowWordIs(pn);
      }
    }

    /** `for (i = 1; i < PTE_COUNT * PTE_SIZE; i++)` over the tables as one array. */
    method FillWindow(k: nat)
      requires Shape() && k + KERNEL_TABLES <= FRAME_COUNT
      requires forall f, w :: k <= f < k + KERNEL_TABLES && 0 <= w < TABLE_SIZE ==> phys[f, w] == 0
      modifies phys
      ensures forall f, w :: k <= f < k + KERNEL_TABLES && 0 <= w < TABLE_SIZE ==>
                phys[f, w] == WindowWord((f - k) * TABLE_SIZE + w)
    {
      var i := 1;
      while i < KERNEL_TABLES * TABLE_SIZE
        invariant 1 <= i <= KERNEL_TABLES * TABLE_SIZE
        invariant forall f, w :: k <= f < k + KERNEL_TABLES && 0 <= w < TABLE_SIZE ==>
                    phys[f, w] == if (f - k) * TABLE_SIZE + w < i then WindowWord((f - k) * TABLE_SIZE + w) else 0
      {
        phys[k + i / TABLE_SIZE, i % TABLE_SIZE] := i * PAGE_SIZE + PRESENT_WRITE;
        i := i + 1;
      }
    }

    lemma WindowEntries(k: nat)
      requires Valid() && 0 < k && k + KERNEL_TABLES <= FRAME_COUNT
      requires forall i :: 0 <= i < TABLE_SIZE ==>
                 pgd[i] == if WINDOW_INDEX <= i < WINDOW_INDEX + KERNEL_TABLES
                           then (k + i - WINDOW_INDEX) * PAGE_SIZE + PRESENT_WRITE else 0
      requires forall f, w :: k <= f < k + KERNEL_TABLES && 0 <= w < TABLE_SIZE ==>
                 phys[f, w] == WindowWord((f - k) * TABLE_SIZE + w)
      ensures forall pn: nat :: pn < PAGE_COUNT ==> Entry(pn) == WindowWord(pn - WINDOW_PAGE)
    {
      forall pn: nat | pn < PAGE_COUNT ensures Entry(pn) == WindowWord(pn - WINDOW_PAGE) {
        var i := pn / TABLE_SIZE;
        assert WINDOW_PAGE == WINDOW_INDEX * TABLE_SIZE;
        if WINDOW_INDEX <= i < WINDOW_INDEX + KERNEL_TABLES {
          assert Masked(pgd[i]) == (k + i - WINDOW_INDEX) * PAGE_SIZE;
        }
      }
    }

    lemma KernelTablesDisjoint(k: nat)
      requires Shape() && data == {} && Disjoint(Frames(stack[1..top + 1], map[], {}))
      requires 0 < k && k + KERNEL_TABLES <= FRAME_COUNT
      requires forall f :: f in stack[1..top + 1] ==> !(k <= f / PAGE_SIZE < k + KERNEL_TABLES)
      requires forall i :: 0 <= i < TABLE_SIZE ==>
                 pgd[i] == if WINDOW_INDEX <= i < WINDOW_INDEX + KERNEL_TABLES
                           then (k + i - WINDOW_INDEX) * PAGE_SIZE + PRESENT_WRITE else 0
      ensures Disjoint(View())
    {
      var s, t := View(), Frames(stack[1..top + 1], map[], {});
      forall i: nat | i in s.tables
        ensures WINDOW_INDEX <= i < WINDOW_INDEX + KERNEL_TABLES
        ensures s.tables[i] == (k + i - WINDOW_INDEX) * PAGE_SIZE && IsFrame(s.tables[i])
        ensures k <= s.tables[i] / PAGE_SIZE < k + KERNEL_TABLES
      {
        assert s.tables[i] == Masked(pgd[i]);
      }
      forall f | f in Total(s) ensures IsFrame(f) {
        if f in s.free {
          assert f in Total(t);
        }
      }
    }
  }

  lemma WindowWordIs(pn: nat)
    requires pn < PAGE_COUNT
    ensures WindowWord(pn - WINDOW_PAGE) != 0 <==> 0xC_0000 < pn < 0xE_0000
    ensures 0xC_0000 < pn < 0xE_0000 ==> Masked(WindowWord(pn - WINDOW_PAGE)) == (pn - 0xC_0000) * 0x1000
  {}

  /** Entry number n of the window: frame n, present and writable; entry 0 is left out. */
  function WindowWord(n: int): uint32 {
    if 0 < n < FRAME_COUNT then n * PAGE_SIZE + PRESENT_WRITE else 0
  }
}
