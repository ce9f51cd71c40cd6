/** The pages below the heap: how `kmalloc` grows them, how `kfree` gives them back
    (src/memlib.c:41-44 and 93-99), and why they are always exactly the pages that hold
    a byte of a block. */
module HeapPages {
  import opened Numerals
  import opened Paging
  import opened HeapSpec

  /** Frame ownership, the frame behind each heap page, and `mm_top`. */
  datatype Space = Space(frames: Frames, pages: map<nat, nat>, top: nat)

  /** The heap pages are [V_MM_START, mm_top), each with a frame of its own. */
  ghost predicate Sound(s: Space) {
    && Disjoint(s.frames)
    && s.top % PAGE_SIZE == 0 && s.top >= HEAP_START
    && (forall p :: p in s.pages <==> HEAP_PAGE <= p < s.top / PAGE_SIZE)
    && (forall p, q :: p in s.pages && q in s.pages && p != q ==> s.pages[p] != s.pages[q])
    && (forall p :: p in s.pages ==> s.pages[p] in s.frames.data)
  }

  /** Frames handed out to others than the heap. */
  ghost function Foreign(s: Space): set<nat> {
    s.frames.data - s.pages.Values
  }

  function TableIndex(page: nat): nat {
    page / TABLE_SIZE
  }

  /** One turn of the loop at src/memlib.c:41-44: `alloc_page`, then `map`, which may take a
      further frame for a table. */
  ghost predicate CanGrowOnce(s: Space) {
    && s.frames.free != []
    && (TableIndex(s.top / PAGE_SIZE) in s.frames.tables || |s.frames.free| >= 2)
  }

  ghost function GrowOnce(s: Space): Space
    requires CanGrowOnce(s)
  {
    var page := s.top / PAGE_SIZE;
    Space(TableStep(AllocStep(s.frames), TableIndex(page)), s.pages[page := Last(s.frames)], s.top + PAGE_SIZE)
  }

  /** The stack holds the frames that growing up to `target` takes. */
  ghost predicate CanGrow(s: Space, target: nat)
    decreases target - s.top
  {
    s.top < target ==> CanGrowOnce(s) && CanGrow(GrowOnce(s), target)
  }

  ghost function Grow(s: Space, target: nat): Space
    requires CanGrow(s, target)
    decreases target - s.top
  {
    if s.top >= target then s else Grow(GrowOnce(s), target)
  }

  /** One turn of the loop at src/memlib.c:93-99, for the page just below `mm_top`. */
  function ShrinkOnce(s: Space): Space
    requires s.top >= PAGE_SIZE && s.top / PAGE_SIZE - 1 in s.pages
  {
    var page := s.top / PAGE_SIZE - 1;
    Space(FreeStep(s.frames, s.pages[page]), s.pages - {page}, s.top - PAGE_SIZE)
  }

  ghost function Shrink(s: Space, end: nat): Space
    requires Sound(s) && end >= HEAP_START
    decreases s.top
  {
    if s.top - PAGE_SIZE < end then s
    else
      ShrinkOnceKeeps(s);
      Shrink(ShrinkOnce(s), end)
  }

  function RoundUp(x: nat): nat {
    (x + PAGE_SIZE - 1) / PAGE_SIZE * PAGE_SIZE
  }

  lemma RoundUpIs(x: nat, t: nat)
    ensures t % PAGE_SIZE == 0 && t - PAGE_SIZE < x <= t ==> t == RoundUp(x)
    ensures RoundUp(x) % PAGE_SIZE == 0 && RoundUp(x) - PAGE_SIZE < x <= RoundUp(x)
  {}

  lemma LastIsNew(s: Space)
    requires Sound(s) && s.frames.free != []
    ensures Last(s.frames) !in s.frames.data && Last(s.frames) !in s.pages.Values
  {
    AllocConserves(s.frames);
  }

  lemma GrowOnceKeeps(s: Space)
    requires Sound(s) && CanGrowOnce(s)
    ensures Sound(GrowOnce(s)) && Total(GrowOnce(s).frames) == Total(s.frames)
    ensures Foreign(GrowOnce(s)) == Foreign(s)
  {
    hide Disjoint, Total;
    var t, page := GrowOnce(s), s.top / PAGE_SIZE;
    LastIsNew(s);
    AllocConserves(s.frames);
    TableConserves(AllocStep(s.frames), TableIndex(page));
    assert t.pages[page] == Last(s.frames);
    assert forall p :: p in s.pages ==> t.pages[p] == s.pages[p];
    assert t.pages.Values == s.pages.Values + {Last(s.frames)};
  }

  lemma ShrinkOnceKeeps(s: Space)
    requires Sound(s) && s.top > HEAP_START
    ensures s.top / PAGE_SIZE - 1 in s.pages && Sound(ShrinkOnce(s))
    ensures Total(ShrinkOnce(s).frames) == Total(s.frames)
    ensures Foreign(ShrinkOnce(s)) == Foreign(s)
  {
    hide Disjoint, Total;
    var page := s.top / PAGE_SIZE - 1;
    var t := ShrinkOnce(s);
    FreeConserves(s.frames, s.pages[page]);
    assert forall p :: p in t.pages ==> t.pages[p] == s.pages[p];
    assert s.pages.Values == t.pages.Values + {s.pages[page]};
    assert s.pages[page] !in t.pages.Values;
  }

  /** Growing conserves the frames, touches no frame of others, keeps the pages that are
      there, and ends just above the target. */
  lemma {:induction false} GrowKeeps(s: Space, target: nat)
    requires Sound(s) && CanGrow(s, target)
    ensures var t := Grow(s, target);
            && Sound(t) && Total(t.frames) == Total(s.frames) && Foreign(t) == Foreign(s)
            && t.top == (if s.top >= target then s.top else RoundUp(target))
            && (forall p :: p in s.pages ==> p in t.pages && t.pages[p] == s.pages[p])
    decreases target - s.top
  {
    if s.top < target {
      GrowOnceKeeps(s);
      hide Disjoint, Total, Foreign, TableStep, AllocStep, CanGrowOnce;
      var u := GrowOnce(s);
      GrowKeeps(u, target);
      RoundUpIs(target, u.top);
      assert forall p :: p in s.pages ==> p in u.pages && u.pages[p] == s.pages[p];
    }
  }

  /** Shrinking conserves the frames, touches no frame of others, and keeps exactly the
      pages that start below the new end of the heap. */
  lemma {:induction false} ShrinkKeeps(s: Space, end: nat)
    requires Sound(s) && HEAP_START <= end <= s.top
    ensures var t := Shrink(s, end);
            && Sound(t) && Total(t.frames) == Total(s.frames) && Foreign(t) == Foreign(s)
            && t.top == RoundUp(end)
            && (forall p :: p in s.pages ==> (p in t.pages <==> p * PAGE_SIZE < end))
            && (forall p :: p in t.pages ==> p in s.pages && t.pages[p] == s.pages[p])
    decreases s.top
  {
    RoundUpIs(end, s.top);
    if s.top - PAGE_SIZE >= end {
      ShrinkOnceKeeps(s);
      ShrinkKeeps(ShrinkOnce(s), end);
    }
  }

  /** The frames of the first `n` heap pages, in order. */
  ghost function FrameList(s: Space, n: nat): (fs: seq<nat>)
    requires Sound(s) && HEAP_PAGE + n <= s.top / PAGE_SIZE
    ensures |fs| == n && forall i :: 0 <= i < n ==> fs[i] == s.pages[HEAP_PAGE + i]
  {
    seq(n, i requires 0 <= i < n => s.pages[HEAP_PAGE + i])
  }

  /** There are fewer frames than pages from V_MM_START to 4 GB, so `mm_top` never wraps. */
  lemma TopNeverWraps(s: Space)
    requires Sound(s)
    ensures s.top <= 0xFFFF_F000
  {
    var n := s.top / PAGE_SIZE - HEAP_PAGE;
    var fs := FrameList(s, n);
    SeqAsSet(fs);
    FrameRange(FRAME_COUNT);
    forall f | f in SetOf(fs) ensures f in FramesBelow(FRAME_COUNT) {
      assert f in Total(s.frames);
    }
    SubsetSize(SetOf(fs), FramesBelow(FRAME_COUNT));
  }

  // ------------------------------------------------------- Heap and its pages

  /** Blocks tile the heap, and its pages are exactly those up to its end. */
  ghost predicate Consistent(bs: seq<Block>, s: Space) {
    Tiled(bs) && Sound(s) && s.top == RoundUp(EndOf(bs))
  }

  lemma EndIsAboveStart(bs: seq<Block>)
    requires Tiled(bs)
    ensures EndOf(bs) >= HEAP_START
  {
    if bs != [] {
      AddrFromStart(bs, |bs| - 1);
    }
  }

  /** `kmalloc` keeps heap and pages consistent. */
  lemma MallocKeepsConsistent(bs: seq<Block>, s: Space, size: nat)
    requires Consistent(bs, s) && size >= HEADER && CanGrow(s, EndOf(Malloc(bs, size)))
    ensures Consistent(Malloc(bs, size), Grow(s, EndOf(Malloc(bs, size))))
    ensures Total(Grow(s, EndOf(Malloc(bs, size))).frames) == Total(s.frames)
    ensures Foreign(Grow(s, EndOf(Malloc(bs, size)))) == Foreign(s)
  {
    var end := EndOf(Malloc(bs, size));
    MallocKeepsTiling(bs, size);
    GrowKeeps(s, end);
    RoundUpIs(EndOf(bs), s.top);
    RoundUpIs(end, s.top);
  }

  /** The word that src/memlib.c:10 makes of the size asked for. */
  function Request(size0: uint32): uint32 {
    (size0 + HEADER) % TWO_TO_THE_32
  }

  /** The 32-bit sum that bounds the loop at src/memlib.c:41. */
  function Target(bs: seq<Block>, size: nat): nat {
    (EndOf(bs) + size) % TWO_TO_THE_32
  }

  /** Where the sum wraps, it lies below `mm_top`: the loop makes no turn, and no assertion of
      alloc_page can fire. */
  lemma WrappedTarget(bs: seq<Block>, s: Space, size: nat)
    requires Consistent(bs, s) && size < TWO_TO_THE_32 && EndOf(bs) + size >= TWO_TO_THE_32
    ensures CanGrow(s, Target(bs, size)) && Grow(s, Target(bs, size)) == s
  {
    TopNeverWraps(s);
    RoundUpIs(EndOf(bs), s.top);
    assert Target(bs, size) == EndOf(bs) + size - TWO_TO_THE_32;
  }

  /** Every byte from `a` on, `len` of them, has a page. */
  ghost predicate IsBacked(s: Space, a: nat, len: nat) {
    forall b :: a <= b < a + len ==> b / PAGE_SIZE in s.pages
  }

  lemma GrownIsBacked(bs: seq<Block>, s: Space, len: nat)
    requires Consistent(bs, s) && CanGrow(s, EndOf(bs) + len)
    ensures IsBacked(Grow(s, EndOf(bs) + len), EndOf(bs), len)
  {
    var t := Grow(s, EndOf(bs) + len);
    GrowKeeps(s, EndOf(bs) + len);
    EndIsAboveStart(bs);
    RoundUpIs(EndOf(bs) + len, t.top);
    forall b | EndOf(bs) <= b < EndOf(bs) + len ensures b / PAGE_SIZE in t.pages {
      assert b < t.top;
    }
  }

  /** Lines 10 and 33-44 of src/memlib.c on words, for every size, where nothing fits and no
      assertion fires: what is appended is backed by pages, header included, if and only if the
      end of the heap, the size and the header together stay below 2^32. */
  lemma AppendBackedIff(bs: seq<Block>, s: Space, size0: uint32)
    requires Consistent(bs, s) && CanGrow(s, Target(bs, Request(size0)))
    ensures IsBacked(Grow(s, Target(bs, Request(size0))), EndOf(bs), size0 + HEADER)
       <==> EndOf(bs) + size0 + HEADER < TWO_TO_THE_32
  {
    hide Tiled, Sound, Grow, CanGrow, IsBacked;
    var t := Grow(s, Target(bs, Request(size0)));
    EndIsAboveStart(bs);
    if EndOf(bs) + size0 + HEADER < TWO_TO_THE_32 {
      assert Target(bs, Request(size0)) == EndOf(bs) + size0 + HEADER;
      GrownIsBacked(bs, s, size0 + HEADER);
    } else {
      GrowKeeps(s, Target(bs, Request(size0)));
      LastByteHasNoPage(bs, s, t, size0 + HEADER);
    }
  }

  lemma LastByteHasNoPage(bs: seq<Block>, s: Space, t: Space, len: nat)
    requires Consistent(bs, s) && Sound(t) && EndOf(bs) + len >= TWO_TO_THE_32
    ensures !IsBacked(t, EndOf(bs), len)
  {
    TopNeverWraps(s);
    TopNeverWraps(t);
    RoundUpIs(EndOf(bs), s.top);
    var b := TWO_TO_THE_32 - 1;
    assert EndOf(bs) <= b < EndOf(bs) + len && b / PAGE_SIZE !in t.pages;
  }

  /** kmalloc(0x1FFFFFF4) on the empty heap, with no frame left at all: no assertion fires, and
      the block has no page. */
  lemma WrapFailsOnExample()
    ensures var s := Space(Frames([], map[], {}), map[], HEAP_START);
            && Consistent([], s) && Target([], 0x1FFF_FFF4 + HEADER) == 0
            && CanGrow(s, 0) && Grow(s, 0) == s && !IsBacked(s, HEAP_START, HEADER)
  {
    var s := Space(Frames([], map[], {}), map[], HEAP_START);
    RoundUpIs(HEAP_START, HEAP_START);
    assert HEAP_START / PAGE_SIZE !in s.pages;
  }

  /** `kfree` keeps heap and pages consistent: it gives back exactly the frames of the pages
      that hold no byte of a block any more. */
  lemma FreeKeepsConsistent(bs: seq<Block>, s: Space, i: nat)
    requires Consistent(bs, s) && i < |bs| && bs[i].used
    ensures EndOf(Release(bs, i)) >= HEAP_START
    ensures Consistent(Release(bs, i), Shrink(s, EndOf(Release(bs, i))))
    ensures Total(Shrink(s, EndOf(Release(bs, i))).frames) == Total(s.frames)
    ensures Foreign(Shrink(s, EndOf(Release(bs, i)))) == Foreign(s)
    ensures forall p :: p in s.pages ==>
              (p in Shrink(s, EndOf(Release(bs, i))).pages <==> p * PAGE_SIZE < EndOf(Release(bs, i)))
  {
    FreeKeepsTiling(bs, i);
    EndIsAboveStart(Release(bs, i));
    RoundUpIs(EndOf(bs), s.top);
    ShrinkKeeps(s, EndOf(Release(bs, i)));
  }

  /** Every byte of every block lies in a mapped page, and distinct pages have distinct frames. */
  lemma ByteIsBacked(bs: seq<Block>, s: Space, i: nat, a: nat)
    requires Consistent(bs, s) && i < |bs| && bs[i].addr <= a < bs[i].addr + bs[i].len
    ensures a / PAGE_SIZE in s.pages && s.pages[a / PAGE_SIZE] in s.frames.data
    ensures forall q :: q in s.pages && q != a / PAGE_SIZE ==> s.pages[q] != s.pages[a / PAGE_SIZE]
  {
    AddrFromStart(bs, i);
    AddrMonotone(bs, i);
    RoundUpIs(EndOf(bs), s.top);
  }

  /** Allocating and freeing again restores the pages, each with its frame. */
  lemma FreeUndoesMallocPages(bs: seq<Block>, s: Space, size: nat)
    requires Consistent(bs, s) && size >= HEADER && CanGrow(s, EndOf(Malloc(bs, size)))
    ensures var t := Grow(s, EndOf(Malloc(bs, size)));
            && Sound(t) && EndOf(bs) >= HEAP_START
            && Shrink(t, EndOf(bs)).pages == s.pages && Shrink(t, EndOf(bs)).top == s.top
  {
    hide Malloc, Grow, CanGrow, Shrink, Tiled;
    var t := Grow(s, EndOf(Malloc(bs, size)));
    MallocKeepsConsistent(bs, s, size);
    GrowKeeps(s, EndOf(Malloc(bs, size)));
    MallocKeepsTiling(bs, size);
    EndIsAboveStart(bs);
    RoundUpIs(EndOf(bs), s.top);
    RoundUpIs(EndOf(Malloc(bs, size)), t.top);
    ShrinkKeeps(t, EndOf(bs));
    var u := Shrink(t, EndOf(bs));
    assert forall p :: p in u.pages <==> p in s.pages;
    assert forall p :: p in u.pages ==> u.pages[p] == s.pages[p];
  }

  // ---------------------------------------------------------------------- Runs

  ghost predicate Possible(bs: seq<Block>, s: Space, c: Call) {
    Allowed(bs, c) && (c.DoMalloc? ==> CanGrow(s, EndOf(Malloc(bs, c.size))))
  }

  ghost function NextSpace(bs: seq<Block>, s: Space, c: Call): Space
    requires Consistent(bs, s) && Possible(bs, s, c)
  {
    match c
    case DoMalloc(size) => Grow(s, EndOf(Malloc(bs, size)))
    case DoFree(b) =>
      FreeKeepsConsistent(bs, s, IndexOf(bs, b));
      Shrink(s, EndOf(AfterCall(bs, c)))
  }

  lemma CallKeepsConsistent(bs: seq<Block>, s: Space, c: Call)
    requires Consistent(bs, s) && Possible(bs, s, c)
    ensures Consistent(AfterCall(bs, c), NextSpace(bs, s, c))
    ensures Total(NextSpace(bs, s, c).frames) == Total(s.frames)
    ensures Foreign(NextSpace(bs, s, c)) == Foreign(s)
  {
    match c
    case DoMalloc(size) => MallocKeepsConsistent(bs, s, size);
    case DoFree(b) => FreeKeepsConsistent(bs, s, IndexOf(bs, b));
  }

  /** A run of calls, each possible when it is made; the out-of-memory stop of alloc_page
      ends a run. */
  ghost predicate IsHeapRun(bs: seq<Block>, s: Space, calls: seq<Call>)
    requires Consistent(bs, s)
    decreases |calls|
  {
    calls == [] ||
    (Possible(bs, s, calls[0]) &&
     (CallKeepsConsistent(bs, s, calls[0]);
      IsHeapRun(AfterCall(bs, calls[0]), NextSpace(bs, s, calls[0]), calls[1..])))
  }

  ghost function HeapRunEnd(bs: seq<Block>, s: Space, calls: seq<Call>): (r: (seq<Block>, Space))
    requires Consistent(bs, s) && IsHeapRun(bs, s, calls)
    decreases |calls|
  {
    if calls == [] then (bs, s)
    else
      CallKeepsConsistent(bs, s, calls[0]);
      HeapRunEnd(AfterCall(bs, calls[0]), NextSpace(bs, s, calls[0]), calls[1..])
  }

  /** Exact page accounting over every run: at its end the mapped heap pages are precisely
      those up to the last block, no frame is lost or made up, and no frame of others is
      touched. */
  lemma {:induction false} RunKeepsAccounting(bs: seq<Block>, s: Space, calls: seq<Call>)
    requires Consistent(bs, s) && IsHeapRun(bs, s, calls)
    ensures var (cs, t) := HeapRunEnd(bs, s, calls);
            && Consistent(cs, t)
            && (forall p :: p in t.pages <==> HEAP_PAGE <= p && p * PAGE_SIZE < EndOf(cs))
            && Total(t.frames) == Total(s.frames) && Foreign(t) == Foreign(s)
    decreases |calls|
  {
    if calls == [] {
      RoundUpIs(EndOf(bs), s.top);
    } else {
      CallKeepsConsistent(bs, s, calls[0]);
      RunKeepsAccounting(AfterCall(bs, calls[0]), NextSpace(bs, s, calls[0]), calls[1..]);
    }
  }
}
