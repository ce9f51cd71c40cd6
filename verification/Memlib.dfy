/** `kmalloc`, `kfree` and `_free_memory` of src/memlib.c on the header list, over the page
    tables and the frame stack of src/memory.c.

    The split and free paths of the C code depart from a coalescing allocator in five places.
    Here the intended step is taken and each repair is named beside the line; the modules
    Departures and FreeDepartures say what the lines do as they are written. */
module Memlib {
  import opened Numerals
  import opened Paging
  import opened HeapSpec
  import opened HeapPages
  import opened Links

  /** `uint32_t length : 31`. */
  const LENGTH_LIMIT := 0x8000_0000

  /** The block list after src/memlib.c:46-54. */
  function Appended(bs: seq<Block>, size: nat): seq<Block> {
    bs + [Block(EndOf(bs), size % LENGTH_LIMIT, true)]
  }

  /** Neither the sum at src/memlib.c:10 nor the one at line 41 wraps. */
  ghost predicate NoWrap(bs: seq<Block>, size: nat) {
    size < TWO_TO_THE_32 && (FirstFit(bs, size) == |bs| ==> EndOf(bs) + size < TWO_TO_THE_32)
  }

  /** The table entry of a heap page. */
  function PageWord(pages: map<nat, nat>, pn: nat): int {
    if pn in pages then pages[pn] + PRESENT_WRITE else 0
  }

  class Heap {
    const mem: Memory
    var first: nat
    var mm_top: uint32
    var headers: map<nat, Header>
    ghost var blocks: seq<Block>
    ghost var pages: map<nat, nat>

    ghost function SpaceNow(): Space
      requires mem.Shape()
      reads `pages, `mm_top, mem, mem.stack, mem.pgd
    {
      Space(mem.View(), pages, mm_top)
    }

    /** The tables map the heap pages, present and writable, and nothing above them. */
    ghost predicate Mapped()
      requires mem.Valid()
      reads `pages, mem, mem.stack, mem.pgd, mem.phys
    {
      forall pn: nat :: HEAP_PAGE <= pn < PAGE_COUNT ==> mem.Entry(pn) == PageWord(pages, pn)
    }

    ghost predicate Valid()
      reads this, mem, mem.stack, mem.pgd, mem.phys
    {
      && mem.Valid()
      && Consistent(blocks, SpaceNow())
      && Mapped()
      && Linked(headers, blocks) && first == AddrAt(blocks, 0)
    }

    /** src/memlib.c:5-7, after `init_vmm`: an empty heap over page tables that map nothing
        from V_MM_START on. */
    constructor (m: Memory)
      requires m.Valid() && forall pn: nat :: HEAP_PAGE <= pn < PAGE_COUNT ==> m.Entry(pn) == 0
      ensures mem == m && Valid() && blocks == []
    {
      mem, first, mm_top, headers, blocks, pages := m, 0, HEAP_START, map[], [], map[];
    }

    /** The loop at src/memlib.c:41-44. */
    method GrowTo(end: nat)
      requires mem.Valid() && Sound(SpaceNow()) && Mapped()
      requires CanGrow(SpaceNow(), end)
      modifies this`mm_top, this`pages, mem, mem.pgd, mem.phys
      ensures mem.Valid() && SpaceNow() == Grow(old(SpaceNow()), end) && Mapped()
    {
      while mm_top < end
        invariant mem.Valid() && Sound(SpaceNow()) && Mapped()
        invariant CanGrow(SpaceNow(), end) && Grow(SpaceNow(), end) == Grow(old(SpaceNow()), end)
        decreases end - mm_top
      {
        GrowPage();
      }
    }

    /** `page = alloc_page(); map(pgd_kern, mm_top, page, PAGE_PRESENT | PAGE_WRITE);` */
    method MapNewPage() returns (page: nat)
      requires mem.Valid() && CanGrowOnce(SpaceNow())
      modifies mem, mem.pgd, mem.phys
      ensures mem.Valid() && mem.View() == TableStep(AllocStep(old(mem.View())), TableIndex(mm_top / PAGE_SIZE))
      ensures page == Last(old(mem.View()))
      ensures forall pn: nat :: pn < PAGE_COUNT ==>
                mem.Entry(pn) == if pn == mm_top / PAGE_SIZE then page + PRESENT_WRITE else old(mem.Entry(pn))
    {
      AllocConserves(mem.View());
      IndicesArePage(mm_top);
      page := mem.AllocPage();
      mem.Map(mm_top, page, PRESENT_WRITE);
    }

    /** One page more. */
    method GrowPage()
      requires mem.Valid() && Sound(SpaceNow()) && Mapped() && CanGrowOnce(SpaceNow())
      modifies this`mm_top, this`pages, mem, mem.pgd, mem.phys
      ensures mem.Valid() && SpaceNow() == GrowOnce(old(SpaceNow())) && Sound(SpaceNow()) && Mapped()
    {
      hide Sound, CanGrowOnce, TableStep, AllocStep, CanGrow;
      GrowOnceKeeps(SpaceNow());
      TopNeverWraps(GrowOnce(SpaceNow()));
      var page := MapNewPage();
      pages := pages[mm_top / PAGE_SIZE := page];
      mm_top := mm_top + PAGE_SIZE;
    }

    /** The loop at src/memlib.c:93-99. */
    method ShrinkTo(node: nat)
      requires mem.Valid() && Sound(SpaceNow()) && Mapped() && HEAP_START <= node
      modifies this`mm_top, this`pages, mem, mem.stack, mem.phys
      ensures mem.Valid() && SpaceNow() == Shrink(old(SpaceNow()), node) && Mapped()
    {
      while mm_top - PAGE_SIZE >= node
        invariant mem.Valid() && Sound(SpaceNow()) && Mapped()
        invariant Shrink(SpaceNow(), node) == Shrink(old(SpaceNow()), node)
        decreases mm_top
      {
        ShrinkPage();
      }
    }

    /** The topmost page is given back. */
    method ShrinkPage()
      requires mem.Valid() && Sound(SpaceNow()) && Mapped() && mm_top > HEAP_START
      modifies this`mm_top, this`pages, mem, mem.stack, mem.phys
      ensures mem.Valid() && mm_top == old(mm_top) - PAGE_SIZE
      ensures old(mm_top) / PAGE_SIZE - 1 in old(pages) && SpaceNow() == ShrinkOnce(old(SpaceNow()))
      ensures Sound(SpaceNow()) && Mapped()
    {
      hide Disjoint, FreeStep, TablesOf, Masked, IsFrame, Total, Foreign;
      ShrinkOnceKeeps(SpaceNow());
      ghost var pn := mm_top / PAGE_SIZE - 1;
      UnmapPage(pages[pn]);
      pages := pages - {pn};
      mm_top := mm_top - PAGE_SIZE;
    }

    lemma FrameOfEntry(frame: nat)
      requires IsFrame(frame)
      ensures Masked(frame + PRESENT_WRITE) == frame
    {}

    /** src/memlib.c:95-98. Repair of lines 96-97, which look up and unmap `mm_top` itself:
        the page just below it is meant. */
    method UnmapPage(ghost frame: nat)
      requires mem.Valid() && PAGE_SIZE <= mm_top && mm_top % PAGE_SIZE == 0 && frame in mem.View().data
      requires mem.Entry(mm_top / PAGE_SIZE - 1) == frame + PRESENT_WRITE
      modifies mem, mem.stack, mem.phys
      ensures mem.Valid() && mem.View() == FreeStep(old(mem.View()), frame)
      ensures forall pn: nat :: pn < PAGE_COUNT ==>
                mem.Entry(pn) == if pn == mm_top / PAGE_SIZE - 1 then 0 else old(mem.Entry(pn))
    {
      hide Masked, TablesOf, FreeStep;
      assert frame in Total(mem.View());
      FrameOfEntry(frame);
      var found, page := mem.GetMapping(mm_top - PAGE_SIZE, true);
      mem.Unmap(mm_top - PAGE_SIZE);
      mem.FreePage(page);
    }

    // ------------------------------------------------------------- kmalloc

    /** The list walk at src/memlib.c:12-31: first fit. */
    method FindFit(size: nat) returns (node: nat, prev: nat, ghost i: nat)
      requires Tiled(blocks) && Linked(headers, blocks) && first == AddrAt(blocks, 0)
      ensures i == FirstFit(blocks, size)
      ensures node == AddrAt(blocks, FirstFit(blocks, size)) && prev == AddrAt(blocks, FirstFit(blocks, size) - 1)
      ensures (node == 0 <==> i == |blocks|) && (prev == 0 <==> i == 0)
    {
      TiledIsIncreasing(blocks);
      node, prev, i := first, 0, 0;
      while node != 0
        invariant i <= |blocks| && node == AddrAt(blocks, i) && prev == AddrAt(blocks, i - 1)
        invariant forall k :: 0 <= k < i ==> !Fits(blocks[k], size)
        decreases |blocks| - i
      {
        assert LinkedAt(headers, blocks, i);
        if !headers[node].used && headers[node].length >= size {
          return;
        }
        prev := node;
        node := headers[node].next;
        i := i + 1;
      }
    }

    /** src/memlib.c:17-25: something is left over beyond another header. Repairs: line 18
        takes the old length, where the rest is meant to start at node + size; lines 19-23
        leave out the `prev` of the successor, which is meant to be the rest. */
    method SplitBlock(node: nat, size: nat, ghost i: nat)
      requires Tiled(blocks) && Linked(headers, blocks) && size >= HEADER
      requires i < |blocks| && node == blocks[i].addr && blocks[i].len > HEADER + size
      modifies this`headers
      ensures Linked(headers, Take(blocks, i, size))
    {
      ghost var b := blocks[i];
      TiledIsIncreasing(blocks);
      assert LinkedAt(headers, blocks, i);
      assert i + 1 < |blocks| ==> Joint(blocks, i) && LinkedAt(headers, blocks, i + 1);
      var old_node, new_node := headers[node], node + size;
      var h := headers[new_node := Header(node, old_node.next, false, old_node.length - size)];
      if old_node.next != 0 {
        h := h[old_node.next := headers[old_node.next].(prev := new_node)];
      }
      h := h[node := old_node.(next := new_node, length := size, used := true)];
      ghost var c, d := Block(b.addr, size, true), Block(b.addr + size, b.len - size, false);
      SpliceAt(blocks, i, [c, d], i + 1, Take(blocks, i, size), i + 2);
      LinkSplit(headers, blocks, i, c, d, h);
      headers := h;
    }

    /** src/memlib.c:16-27: the block that was found. */
    method TakeBlock(node: nat, size: nat, ghost i: nat)
      requires Tiled(blocks) && Linked(headers, blocks) && size >= HEADER
      requires i < |blocks| && node == blocks[i].addr && Fits(blocks[i], size)
      modifies this`headers
      ensures Linked(headers, Take(blocks, i, size))
    {
      assert LinkedAt(headers, blocks, i);
      if headers[node].length > HEADER + size {
        SplitBlock(node, size, i);
      } else {
        MarkUsed(node, size, i);
      }
    }

    method MarkUsed(node: nat, size: nat, ghost i: nat)
      requires Tiled(blocks) && Linked(headers, blocks)
      requires i < |blocks| && node == blocks[i].addr && size <= blocks[i].len <= HEADER + size
      modifies this`headers
      ensures Linked(headers, Take(blocks, i, size))
    {
      ghost var b := blocks[i].(used := true);
      TiledIsIncreasing(blocks);
      assert LinkedAt(headers, blocks, i);
      assert i + 1 < |blocks| ==> LinkedAt(headers, blocks, i + 1);
      headers := headers[node := headers[node].(used := true)];
      assert Take(blocks, i, size) == Splice(blocks, i, [b], i + 1);
      LinkJoined(old(headers), blocks, i, b, i + 1, headers);
    }

    /** src/memlib.c:46-54. */
    method AppendBlock(prev: nat, maddr: nat, size: nat)
      requires Tiled(blocks) && Linked(headers, blocks)
      requires prev == AddrAt(blocks, |blocks| - 1) && maddr == EndOf(blocks)
      modifies this`headers
      ensures Linked(headers, blocks + [Block(maddr, size, true)])
    {
      TiledIsIncreasing(blocks);
      forall k: nat | k < |blocks| ensures blocks[k].addr < maddr {
        AddrMonotone(blocks, k);
      }
      EndIsAboveStart(blocks);
      assert blocks != [] ==> LinkedAt(headers, blocks, |blocks| - 1);
      headers := headers[maddr := Header(prev, 0, true, size)];
      if prev != 0 {
        headers := headers[prev := headers[prev].(next := maddr)];
      }
      LinkAppended(old(headers), blocks, Block(maddr, size, true), headers);
    }

    /** src/memlib.c:33-39. */
    method NewAddress(prev: nat) returns (maddr: nat)
      requires Linked(headers, blocks) && prev == AddrAt(blocks, |blocks| - 1)
      requires prev == 0 <==> blocks == []
      modifies this`first
      ensures maddr == EndOf(blocks)
      ensures first == if blocks == [] then maddr else old(first)
    {
      if prev != 0 {
        assert LinkedAt(headers, blocks, |blocks| - 1);
        maddr := prev + headers[prev].length;
      } else {
        maddr := HEAP_START;
        first := maddr;
      }
    }

    /** src/memlib.c:33-54: a new block behind the last one. */
    method Extend(prev: nat, size: nat) returns (maddr: nat)
      requires Valid() && size < TWO_TO_THE_32 && CanGrow(SpaceNow(), Target(blocks, size))
      requires prev == AddrAt(blocks, |blocks| - 1) && (prev == 0 <==> blocks == [])
      modifies this, mem, mem.pgd, mem.phys
      ensures mem.Valid() && Mapped() && Linked(headers, blocks) && first == AddrAt(blocks, 0)
      ensures maddr == EndOf(old(blocks)) && blocks == Appended(old(blocks), size)
      ensures SpaceNow() == Grow(old(SpaceNow()), Target(old(blocks), size))
    {
      ConsistentParts(blocks, SpaceNow());
      hide Grow, CanGrow, Sound, Tiled, Linked, Consistent, EndOf, Appended, Target;
      maddr := NewAddress(prev);
      GrowAndEnter(prev, maddr, size);
    }

    /** src/memlib.c:41-54. The sum at line 41 is one of words, and the length has 31 bits. */
    method GrowAndEnter(prev: nat, maddr: nat, size: nat)
      requires mem.Valid() && Sound(SpaceNow()) && Mapped() && Tiled(blocks) && Linked(headers, blocks)
      requires prev == AddrAt(blocks, |blocks| - 1) && maddr == EndOf(blocks) && size < TWO_TO_THE_32
      requires first == (if blocks == [] then maddr else blocks[0].addr)
      requires CanGrow(SpaceNow(), Target(blocks, size))
      modifies this, mem, mem.pgd, mem.phys
      ensures mem.Valid() && Mapped() && Linked(headers, blocks) && first == AddrAt(blocks, 0)
      ensures blocks == Appended(old(blocks), size)
      ensures SpaceNow() == Grow(old(SpaceNow()), Target(old(blocks), size))
    {
      hide Grow, CanGrow, Sound, Tiled, Linked, EndOf, Appended;
      GrowTo((maddr + size) % TWO_TO_THE_32);
      EnterBlock(prev, maddr, size);
    }

    /** src/memlib.c:46-54, in headers and list. */
    method EnterBlock(prev: nat, maddr: nat, size: nat)
      requires Tiled(blocks) && Linked(headers, blocks)
      requires prev == AddrAt(blocks, |blocks| - 1) && maddr == EndOf(blocks)
      requires first == (if blocks == [] then maddr else blocks[0].addr)
      modifies this`headers, this`blocks
      ensures blocks == Appended(old(blocks), size) && Linked(headers, blocks) && first == AddrAt(blocks, 0)
    {
      hide Tiled, Linked;
      AppendBlock(prev, maddr, size % LENGTH_LIMIT);
      blocks := Appended(blocks, size);
    }

    lemma NoGrowth(size: nat)
      requires mem.Valid() && Consistent(blocks, SpaceNow()) && size >= HEADER
      requires FirstFit(blocks, size) < |blocks|
      ensures CanGrow(SpaceNow(), EndOf(Malloc(blocks, size)))
      ensures Grow(SpaceNow(), EndOf(Malloc(blocks, size))) == SpaceNow()
      ensures EndOf(Malloc(blocks, size)) == EndOf(blocks)
      ensures Consistent(Malloc(blocks, size), SpaceNow())
    {
      MallocKeepsTiling(blocks, size);
      RoundUpIs(EndOf(blocks), mm_top);
    }

    /** src/memlib.c:16-28, where a block fits. */
    method Reuse(node: nat, size: nat, ghost i: nat)
      requires Valid() && size >= HEADER && i == FirstFit(blocks, size) < |blocks| && node == blocks[i].addr
      modifies this`headers, this`blocks
      ensures Valid() && blocks == Malloc(old(blocks), size)
      ensures SpaceNow() == Grow(old(SpaceNow()), EndOf(blocks))
    {
      NoGrowth(size);
      TakeBlock(node, size, i);
      blocks := Take(blocks, i, size);
    }

    /** No assertion of alloc_page fires. */
    ghost predicate FramesSuffice(size: nat)
      requires mem.Shape()
      reads this, mem, mem.stack, mem.pgd
    {
      FirstFit(blocks, size) == |blocks| ==> CanGrow(SpaceNow(), Target(blocks, size))
    }

    /** src/memlib.c:12-56. */
    method Allocate(size: nat) returns (node: nat)
      requires Valid() && size < TWO_TO_THE_32 && FramesSuffice(size)
      requires HEADER <= size || FirstFit(blocks, size) == |blocks|
      modifies this, mem, mem.pgd, mem.phys
      ensures node == MallocAddr(old(blocks), size)
      ensures mem.Valid() && Mapped() && Linked(headers, blocks) && first == AddrAt(blocks, 0)
      ensures old(FirstFit(blocks, size) == |blocks|) ==>
                blocks == Appended(old(blocks), size) && SpaceNow() == Grow(old(SpaceNow()), Target(old(blocks), size))
      ensures old(FirstFit(blocks, size) < |blocks|) ==>
                && Valid() && blocks == Malloc(old(blocks), size)
                && CanGrow(old(SpaceNow()), EndOf(blocks)) && SpaceNow() == Grow(old(SpaceNow()), EndOf(blocks))
    {
      ConsistentParts(blocks, SpaceNow());
      hide Tiled, Linked, Sound, CanGrow, Grow, Target, Appended;
      var prev; ghost var i;
      node, prev, i := FindFit(size);
      if node != 0 {
        NoGrowth(size);
        Reuse(node, size, i);
      } else {
        node := Extend(prev, size);
      }
    }

    /** `kmalloc`, src/memlib.c:9-57. The result is the address behind the header. Where the sum
        at line 10 or the one at line 41 wraps, too short a block or one without pages is
        appended. */
    method Kmalloc(size0: uint32) returns (obj: nat)
      requires Valid() && FramesSuffice(Request(size0))
      requires size0 + HEADER < TWO_TO_THE_32 || FirstFit(blocks, Request(size0)) == |blocks|
      modifies this, mem, mem.pgd, mem.phys
      ensures obj == MallocAddr(old(blocks), Request(size0)) + HEADER
      ensures mem.Valid() && Mapped() && Linked(headers, blocks) && first == AddrAt(blocks, 0)
      ensures old(NoWrap(blocks, size0 + HEADER)) ==>
                && Valid() && blocks == Malloc(old(blocks), size0 + HEADER)
                && CanGrow(old(SpaceNow()), EndOf(blocks)) && SpaceNow() == Grow(old(SpaceNow()), EndOf(blocks))
      ensures !old(NoWrap(blocks, size0 + HEADER)) ==>
                && blocks == Appended(old(blocks), Request(size0))
                && SpaceNow() == Grow(old(SpaceNow()), Target(old(blocks), Request(size0)))
    {
      hide Tiled, Linked, Sound, CanGrow, Grow, Target, Appended, MallocAddr, Malloc;
      if NoWrap(blocks, size0 + HEADER) && FirstFit(blocks, size0 + HEADER) == |blocks| {
        AppendedIsMalloc(blocks, SpaceNow(), size0 + HEADER);
      }
      var node := Allocate((size0 + HEADER) % TWO_TO_THE_32);
      obj := node + HEADER;
    }

    // --------------------------------------------------------------- kfree

    /** src/memlib.c:63. */
    method MarkFree(node: nat, ghost bs: seq<Block>, ghost i: nat) returns (ghost cs: seq<Block>)
      requires Increasing(bs) && Linked(headers, bs) && i < |bs| && node == bs[i].addr
      modifies this`headers
      ensures cs == Splice(bs, i, [bs[i].(used := false)], i + 1)
      ensures Increasing(cs) && Linked(headers, cs)
    {
      assert LinkedAt(headers, bs, i);
      assert i + 1 < |bs| ==> LinkedAt(headers, bs, i + 1);
      headers := headers[node := headers[node].(used := false)];
      cs := Splice(bs, i, [bs[i].(used := false)], i + 1);
      LinkJoined(old(headers), bs, i, bs[i].(used := false), i + 1, headers);
    }

    /** src/memlib.c:65-71: a free successor is joined. */
    method AbsorbNext(node: nat, ghost bs: seq<Block>, ghost i: nat) returns (ghost cs: seq<Block>)
      requires Increasing(bs) && Linked(headers, bs) && i < |bs| && node == bs[i].addr
      modifies this`headers
      ensures cs == if i + 1 < |bs| && !bs[i + 1].used
                    then Splice(bs, i, [bs[i].(len := bs[i].len + bs[i + 1].len)], i + 2) else bs
      ensures Increasing(cs) && Linked(headers, cs)
    {
      assert LinkedAt(headers, bs, i);
      assert i + 1 < |bs| ==> LinkedAt(headers, bs, i + 1);
      assert i + 2 < |bs| ==> LinkedAt(headers, bs, i + 2);
      var next := headers[node].next;
      cs := bs;
      if next != 0 && !headers[next].used {
        var h := headers[node := headers[node].(length := headers[node].length + headers[next].length)];
        var behind := headers[next].next;
        if behind != 0 {
          h := h[behind := h[behind].(prev := node)];
        }
        h := h[node := h[node].(next := behind)];
        ghost var b := bs[i].(len := bs[i].len + bs[i + 1].len);
        cs := Splice(bs, i, [b], i + 2);
        LinkJoined(headers, bs, i, b, i + 2, h);
        headers := h;
      }
    }

    /** src/memlib.c:73-79: the block is joined to a free predecessor. Repair: lines 75-77 set
        prev->prev->next, which is right already; prev->next is meant to skip `node`, and the
        `prev` of the successor to be the predecessor. */
    method AbsorbIntoPrev(node: nat, ghost bs: seq<Block>, ghost i: nat)
      returns (r: nat, ghost cs: seq<Block>, ghost n: nat)
      requires Increasing(bs) && Linked(headers, bs) && i < |bs| && node == bs[i].addr
      modifies this`headers
      ensures n == if i > 0 && !bs[i - 1].used then i - 1 else i
      ensures cs == if n < i then Splice(bs, n, [bs[n].(len := bs[i].len + bs[n].len)], i + 1) else bs
      ensures Increasing(cs) && Linked(headers, cs) && r == cs[n].addr
    {
      assert LinkedAt(headers, bs, i);
      assert i > 0 ==> LinkedAt(headers, bs, i - 1);
      assert i + 1 < |bs| ==> LinkedAt(headers, bs, i + 1) && bs[i + 1].addr > bs[i].addr;
      assert bs[i].addr > 0 && (i > 0 ==> 0 < bs[i - 1].addr < bs[i].addr);
      hide Linked, Splice, Increasing;
      var prev := headers[node].prev;
      r, cs, n := node, bs, i;
      if prev != 0 && !headers[prev].used {
        var h := headers[prev := headers[prev].(length := headers[node].length + headers[prev].length)];
        var behind := headers[node].next;
        h := h[prev := h[prev].(next := behind)];
        if behind != 0 {
          h := h[behind := h[behind].(prev := prev)];
        }
        n := i - 1;
        ghost var b := bs[n].(len := bs[i].len + bs[n].len);
        cs := Splice(bs, n, [b], i + 1);
        BackIsJoined(headers, bs, i, b, h);
        SpliceHead(bs, n, b, i + 1, cs);
        headers := h;
        r := prev;
      }
    }

    /** src/memlib.c:86-91: the list ends before the last block. */
    method CutList(node: nat, ghost bs: seq<Block>)
      requires Increasing(bs) && Linked(headers, bs) && bs != [] && node == bs[|bs| - 1].addr
      modifies this`headers, this`first
      ensures Linked(headers, bs[..|bs| - 1])
      ensures first == if |bs| == 1 then 0 else old(first)
    {
      assert LinkedAt(headers, bs, |bs| - 1);
      assert |bs| >= 2 ==> LinkedAt(headers, bs, |bs| - 2);
      var prev := headers[node].prev;
      if prev == 0 {
        first := 0;
      } else {
        headers := headers[prev := headers[prev].(next := 0)];
      }
      LinkCut(old(headers), bs, headers);
    }

    /** src/memlib.c:63-71: the freed block, joined with a free successor. */
    method CoalesceNext(node: nat, ghost i: nat, ghost m: nat) returns (ghost cs: seq<Block>)
      requires Tiled(blocks) && Linked(headers, blocks) && i < |blocks| && blocks[i].used
      requires m == JoinedTo(blocks, i) && node == blocks[i].addr
      modifies this`headers
      ensures cs == Splice(blocks, i, [Joined(blocks, i, m)], m) && Increasing(cs) && Linked(headers, cs)
    {
      TiledIsIncreasing(blocks);
      ghost var cs1 := MarkFree(node, blocks, i);
      SpliceAt(blocks, i, [blocks[i].(used := false)], i + 1, cs1, i + 1);
      cs := AbsorbNext(node, cs1, i);
      NextStepJoins(blocks, i, m, cs1, cs);
    }

    /** src/memlib.c:63-79: the freed block, joined with its free neighbours. */
    method Coalesce(node0: nat, ghost i: nat, ghost n: nat, ghost m: nat) returns (node: nat, ghost cs: seq<Block>)
      requires Tiled(blocks) && Linked(headers, blocks) && i < |blocks| && blocks[i].used
      requires n == JoinedFrom(blocks, i) && m == JoinedTo(blocks, i) && node0 == blocks[i].addr
      modifies this`headers
      ensures cs == Splice(blocks, n, [Joined(blocks, n, m)], m)
      ensures node == blocks[n].addr && Increasing(cs) && Linked(headers, cs)
    {
      hide Tiled, Linked, Increasing, Splice, Joined;
      JoinedStarts(blocks, i, n, m);
      ghost var cs2 := CoalesceNext(node0, i, m);
      SpliceHead(blocks, i, Joined(blocks, i, m), m, cs2);
      ghost var k;
      node, cs, k := AbsorbIntoPrev(node0, cs2, i);
      PrevStepJoins(blocks, i, n, m, cs2, cs);
      SpliceHead(blocks, n, Joined(blocks, n, m), m, cs);
    }

    /** `_free_memory`, src/memlib.c:86-100. */
    method FreeMemory(node: nat, ghost bs: seq<Block>)
      requires Increasing(bs) && Linked(headers, bs) && bs != [] && node == bs[|bs| - 1].addr >= HEAP_START
      requires mem.Valid() && Sound(SpaceNow()) && Mapped()
      modifies this`headers, this`first, this`mm_top, this`pages, mem, mem.stack, mem.phys
      ensures Linked(headers, bs[..|bs| - 1])
      ensures first == if |bs| == 1 then 0 else old(first)
      ensures mem.Valid() && SpaceNow() == Shrink(old(SpaceNow()), node) && Mapped()
    {
      CutList(node, bs);
      ShrinkTo(node);
    }

    /** src/memlib.c:81-83. */
    method GiveBackEnd(node: nat, ghost cs: seq<Block>, ghost n: nat)
      requires Increasing(cs) && Linked(headers, cs) && n < |cs| && node == cs[n].addr >= HEAP_START
      requires mem.Valid() && Sound(SpaceNow()) && Mapped()
      modifies this`headers, this`first, this`mm_top, this`pages, mem, mem.stack, mem.phys
      ensures mem.Valid() && Mapped()
      ensures n == |cs| - 1 ==>
                && Linked(headers, cs[..n]) && first == (if n == 0 then 0 else old(first))
                && SpaceNow() == Shrink(old(SpaceNow()), node)
      ensures n < |cs| - 1 ==> Linked(headers, cs) && first == old(first) && SpaceNow() == old(SpaceNow())
    {
      NextOf(headers, cs, n);
      if headers[node].next == 0 {
        FreeMemory(node, cs);
      }
    }

    /** src/memlib.c:63-83: headers, pages and tables after the block is freed. */
    method FreeBlock(node0: nat, ghost i: nat)
      requires Valid() && i < |blocks| && blocks[i].used && node0 == blocks[i].addr
      modifies this`headers, this`first, this`mm_top, this`pages, mem, mem.stack, mem.phys
      ensures EndOf(Release(blocks, i)) >= HEAP_START && Sound(old(SpaceNow()))
      ensures mem.Valid() && Mapped() && SpaceNow() == Shrink(old(SpaceNow()), EndOf(Release(blocks, i)))
      ensures Linked(headers, Release(blocks, i)) && first == AddrAt(Release(blocks, i), 0)
    {
      ConsistentParts(blocks, SpaceNow());
      hide Linked, Increasing, EndOf, Splice, Consistent;
      hide Release, Shrink, Sound, Tiled, JoinedFrom, JoinedTo, Joined;
      ghost var n, m := JoinedFrom(blocks, i), JoinedTo(blocks, i);
      ghost var cs0 := Splice(blocks, n, [Joined(blocks, n, m)], m);
      ReleaseEnds(blocks, i, n, m, SpaceNow(), cs0);
      AddrFromStart(blocks, n);
      var node; ghost var cs;
      node, cs := Coalesce(node0, i, n, m);
      GiveBackEnd(node, cs, n);
    }

    /** `kfree`, src/memlib.c:61-84, for the address that `kmalloc` gave out for block `i`.
        Repair: line 62 subtracts in units of header_t; it is meant to undo lines 27 and 56. */
    method Kfree(obj: nat, ghost i: nat)
      requires Valid() && i < |blocks| && blocks[i].used && obj == blocks[i].addr + HEADER
      modifies this, mem, mem.stack, mem.phys
      ensures Valid() && blocks == Release(old(blocks), i)
      ensures EndOf(blocks) >= HEAP_START && SpaceNow() == Shrink(old(SpaceNow()), EndOf(blocks))
    {
      hide Linked, EndOf, Release, Shrink, Sound, Tiled, Consistent;
      ReleaseIsConsistent(blocks, SpaceNow(), i);
      FreeBlock(obj - HEADER, i);
      blocks := Release(blocks, i);
    }
  }

  /** A request that the frame stack can meet in full is so small that neither sum wraps. */
  lemma SizeFits(bs: seq<Block>, s: Space, size: nat)
    requires Consistent(bs, s) && size >= HEADER && CanGrow(s, EndOf(Malloc(bs, size)))
    ensures NoWrap(bs, size)
  {
    var i := FirstFit(bs, size);
    MallocKeepsConsistent(bs, s, size);
    MallocKeepsTiling(bs, size);
    TopNeverWraps(Grow(s, EndOf(Malloc(bs, size))));
    RoundUpIs(EndOf(Malloc(bs, size)), 0);
    if i < |bs| {
      AddrMonotone(bs, i);
    }
  }

  lemma LengthIsKept(bs: seq<Block>, size: nat)
    requires EndOf(bs) >= HEAP_START && EndOf(bs) + size < TWO_TO_THE_32
    ensures Appended(bs, size) == bs + [Block(EndOf(bs), size, true)] && Target(bs, size) == EndOf(bs) + size
  {}

  lemma AppendedIsMalloc(bs: seq<Block>, s: Space, size: nat)
    requires Consistent(bs, s) && HEADER <= size && FirstFit(bs, size) == |bs|
    requires EndOf(bs) + size < TWO_TO_THE_32 && CanGrow(s, Target(bs, size))
    ensures Appended(bs, size) == Malloc(bs, size) && Target(bs, size) == EndOf(Malloc(bs, size))
    ensures CanGrow(s, EndOf(Malloc(bs, size))) && Consistent(Malloc(bs, size), Grow(s, EndOf(Malloc(bs, size))))
  {
    EndIsAboveStart(bs);
    LengthIsKept(bs, size);
    hide Tiled, Sound, CanGrow, Grow, Appended, Target;
    MallocKeepsTiling(bs, size);
    MallocKeepsConsistent(bs, s, size);
  }

  lemma JoinedStarts(bs: seq<Block>, i: nat, n: nat, m: nat)
    requires i < |bs| && n == JoinedFrom(bs, i) && m == JoinedTo(bs, i)
    ensures n <= i < m <= |bs| && (n < i ==> n == i - 1 && !bs[n].used) && (n == i ==> i == 0 || bs[i - 1].used)
    ensures Joined(bs, n, m).addr == bs[n].addr && Joined(bs, i, m).addr == bs[i].addr
  {}

  lemma ReleaseIsConsistent(bs: seq<Block>, s: Space, i: nat)
    requires Consistent(bs, s) && i < |bs| && bs[i].used
    ensures EndOf(Release(bs, i)) >= HEAP_START && Sound(s)
    ensures Consistent(Release(bs, i), Shrink(s, EndOf(Release(bs, i))))
  {
    FreeKeepsConsistent(bs, s, i);
  }

  lemma ConsistentParts(bs: seq<Block>, s: Space)
    requires Consistent(bs, s)
    ensures Tiled(bs) && Sound(s)
  {}

  /** The last block is the one without a successor. */
  lemma NextOf(h: map<nat, Header>, bs: seq<Block>, i: nat)
    requires Linked(h, bs) && Increasing(bs) && i < |bs|
    ensures bs[i].addr in h && (h[bs[i].addr].next == 0 <==> i == |bs| - 1)
  {
    assert LinkedAt(h, bs, i);
  }

  /** What the update of headers at src/memlib.c:73-79 has to achieve. */
  lemma BackIsJoined(h: map<nat, Header>, bs: seq<Block>, i: nat, b: Block, h1: map<nat, Header>)
    requires Increasing(bs) && Linked(h, bs) && 0 < i < |bs| && b == bs[i - 1].(len := bs[i].len + bs[i - 1].len)
    requires bs[i - 1].addr in h1
    requires h1[bs[i - 1].addr] == Header(AddrAt(bs, i - 2), AddrAt(bs, i + 1), bs[i - 1].used, b.len)
    requires i + 1 < |bs| ==>
               bs[i + 1].addr in h1 && h1[bs[i + 1].addr] == HeaderAt(bs, i + 1).(prev := bs[i - 1].addr)
    requires forall a :: a in h && a != bs[i - 1].addr && (i + 1 < |bs| ==> a != bs[i + 1].addr) ==>
               a in h1 && h1[a] == h[a]
    ensures Linked(h1, Splice(bs, i - 1, [b], i + 1)) && Increasing(Splice(bs, i - 1, [b], i + 1))
  {
    var cs := Splice(bs, i - 1, [b], i + 1);
    SpliceAt(bs, i - 1, [b], i + 1, cs, i);
    hide Linked, Increasing, Splice;
    assert LinkedAt(h1, cs, i - 1);
    LinkJoined(h, bs, i - 1, b, i + 1, h1);
  }

  lemma SpliceHead(bs: seq<Block>, n: nat, b: Block, m: nat, cs: seq<Block>)
    requires n < m <= |bs| && cs == Splice(bs, n, [b], m)
    ensures n < |cs| && cs[n] == b && (n > 0 ==> cs[n - 1] == bs[n - 1])
  {}

  lemma SpliceForward(bs: seq<Block>, i: nat, x: Block, y: Block)
    requires i + 2 <= |bs|
    ensures Splice(Splice(bs, i, [x], i + 1), i, [y], i + 2) == Splice(bs, i, [y], i + 2)
    ensures Splice(bs, i, [x], i + 1)[i] == x && Splice(bs, i, [x], i + 1)[i + 1] == bs[i + 1]
  {
    var cs := Splice(bs, i, [x], i + 1);
    assert cs[..i] == bs[..i] && cs[i + 2..] == bs[i + 2..];
  }

  lemma SpliceBack(bs: seq<Block>, i: nat, x: Block, m: nat, y: Block)
    requires 1 <= i < m <= |bs|
    ensures Splice(Splice(bs, i, [x], m), i - 1, [y], i + 1) == Splice(bs, i - 1, [y], m)
    ensures Splice(bs, i, [x], m)[i] == x && Splice(bs, i, [x], m)[i - 1] == bs[i - 1]
  {
    var cs := Splice(bs, i, [x], m);
    assert cs[..i - 1] == bs[..i - 1] && cs[i + 1..] == bs[m..];
  }

  /** The block after the step at src/memlib.c:65-71. */
  lemma NextStepJoins(bs: seq<Block>, i: nat, m: nat, cs1: seq<Block>, cs2: seq<Block>)
    requires Tiled(bs) && i < |bs| && bs[i].used && m == JoinedTo(bs, i)
    requires cs1 == Splice(bs, i, [bs[i].(used := false)], i + 1)
    requires cs2 == if i + 1 < |cs1| && !cs1[i + 1].used
                    then Splice(cs1, i, [cs1[i].(len := cs1[i].len + cs1[i + 1].len)], i + 2) else cs1
    ensures cs2 == Splice(bs, i, [Joined(bs, i, m)], m)
  {
    assert i + 1 < |bs| ==> Joint(bs, i);
    assert |cs1| == |bs| && cs1[i] == bs[i].(used := false);
    if i + 1 < |bs| {
      assert cs1[i + 1] == bs[i + 1];
      if m == i + 2 {
        SpliceForward(bs, i, cs1[i], Joined(bs, i, m));
      }
    }
  }

  /** ... and after the step at src/memlib.c:73-79. */
  lemma PrevStepJoins(bs: seq<Block>, i: nat, n: nat, m: nat, cs2: seq<Block>, cs3: seq<Block>)
    requires Tiled(bs) && i < |bs| && bs[i].used && n == JoinedFrom(bs, i) && m == JoinedTo(bs, i)
    requires cs2 == Splice(bs, i, [Joined(bs, i, m)], m)
    requires cs3 == if n < i then Splice(cs2, n, [cs2[n].(len := cs2[i].len + cs2[n].len)], i + 1) else cs2
    ensures cs3 == Splice(bs, n, [Joined(bs, n, m)], m)
  {
    assert i + 1 < |bs| ==> Joint(bs, i);
    if n < i {
      assert Joint(bs, n);
      SpliceBack(bs, i, Joined(bs, i, m), m, Joined(bs, n, m));
    }
  }

  /** Where the heap ends after a release, and that nothing shrinks unless the end does. */
  lemma ReleaseEnds(bs: seq<Block>, i: nat, n: nat, m: nat, s: Space, cs: seq<Block>)
    requires Consistent(bs, s) && i < |bs| && bs[i].used && n == JoinedFrom(bs, i) && m == JoinedTo(bs, i)
    requires cs == Splice(bs, n, [Joined(bs, n, m)], m)
    ensures n < |cs| && |cs| == n + 1 + |bs| - m && cs[n].addr == bs[n].addr
    ensures EndOf(Release(bs, i)) == (if n == |cs| - 1 then bs[n].addr else EndOf(bs))
    ensures Release(bs, i) == if n == |cs| - 1 then cs[..n] else cs
    ensures n < |cs| - 1 ==> EndOf(bs) >= HEAP_START && Shrink(s, EndOf(bs)) == s
    ensures AddrAt(Release(bs, i), 0) == if n == |cs| - 1 && n == 0 then 0 else bs[0].addr
  {
    FreeJoins(bs, i, n, m);
    assert n > 0 ==> Joint(bs, n - 1);
    EndIsAboveStart(bs);
    RoundUpIs(EndOf(bs), s.top);
  }
}
