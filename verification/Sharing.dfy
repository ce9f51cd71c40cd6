/** The objects behind the runs of module MixedRuns: the calls of src/memory.c and src/memlib.c
    on one Memory and one Heap are its actions. */
module Sharing {
  import opened Numerals
  import opened Paging
  import opened HeapSpec
  import opened HeapPages
  import opened Memlib
  import opened MixedRuns

  ghost function WorldOf(h: Heap): World
    requires h.mem.Shape()
    reads h, h.mem, h.mem.stack, h.mem.pgd
  {
    World(h.blocks, h.SpaceNow())
  }

  /** `init_vmm`, then the statics of src/memlib.c:5-7. */
  method Start(m: Memory, k: nat) returns (h: Heap)
    requires m.Shape() && m.data == {} && Disjoint(Frames(m.stack[1..m.top + 1], map[], {}))
    requires forall i :: 0 <= i < TABLE_SIZE ==> m.pgd[i] == 0
    requires 0 < k && k + KERNEL_TABLES <= FRAME_COUNT
    requires forall j, w :: k <= j < k + KERNEL_TABLES && 0 <= w < TABLE_SIZE ==> m.phys[j, w] == 0
    requires forall f :: f in m.stack[1..m.top + 1] ==> !(k <= f / PAGE_SIZE < k + KERNEL_TABLES)
    modifies m.pgd, m.phys
    ensures h.mem == m && h.Valid() && h.blocks == [] && Good(WorldOf(h))
  {
    m.InitVmm(k);
    assert forall pn: nat :: HEAP_PAGE <= pn < PAGE_COUNT ==> m.Entry(pn) == 0;
    h := new Heap(m);
  }

  /** `alloc_page` by others than the heap. */
  method OthersTake(h: Heap) returns (page: uint32)
    requires h.Valid() && h.mem.top != 0
    modifies h.mem
    ensures old(Can(WorldOf(h), TakeFrame))
    ensures h.Valid() && WorldOf(h) == Do(old(WorldOf(h)), TakeFrame)
  {
    OthersKeep(WorldOf(h), TakeFrame);
    page := h.mem.AllocPage();
  }

  /** `free_page` of a frame that others hold. */
  method OthersGive(h: Heap, f: uint32)
    requires h.Valid() && f in Foreign(h.SpaceNow())
    modifies h.mem, h.mem.stack
    ensures h.Valid() && WorldOf(h) == Do(old(WorldOf(h)), GiveFrame(f))
  {
    OthersKeep(WorldOf(h), GiveFrame(f));
    h.mem.FreePage(f);
  }

  /** `map` of a page below the heap. */
  method OthersMap(h: Heap, va: uint32, pa: uint32, flags: uint32)
    requires h.Valid() && PageOf(va) < HEAP_PAGE && (PgdIndex(va) in h.mem.View().tables || h.mem.top != 0)
    modifies h.mem, h.mem.pgd, h.mem.phys
    ensures old(Can(WorldOf(h), MapPage(PgdIndex(va))))
    ensures h.Valid() && WorldOf(h) == Do(old(WorldOf(h)), MapPage(PgdIndex(va)))
  {
    OthersKeep(WorldOf(h), MapPage(PgdIndex(va)));
    h.mem.Map(va, pa, flags);
  }

  /** A kmalloc that the frame stack can meet in full is the action of the heap. */
  method HeapTakes(h: Heap, size0: uint32) returns (obj: nat)
    requires h.Valid() && Possible(h.blocks, h.SpaceNow(), DoMalloc(size0 + HEADER))
    modifies h, h.mem, h.mem.pgd, h.mem.phys
    ensures h.Valid() && WorldOf(h) == Do(old(WorldOf(h)), OnHeap(DoMalloc(size0 + HEADER)))
  {
    hide Malloc, Grow, CanGrow, Tiled, Sound, FirstFit, Target;
    SizeFits(h.blocks, h.SpaceNow(), size0 + HEADER);
    SufficesOnWords(h.blocks, h.SpaceNow(), size0 + HEADER);
    obj := h.Kmalloc(size0);
  }

  lemma SufficesOnWords(bs: seq<Block>, s: Space, size: nat)
    requires FirstFit(bs, size) == |bs| ==> EndOf(bs) + size < TWO_TO_THE_32
    requires CanGrow(s, EndOf(Malloc(bs, size)))
    ensures FirstFit(bs, size) == |bs| ==> CanGrow(s, Target(bs, size))
  {}

  /** A kfree is the action of the heap. */
  method HeapGives(h: Heap, obj: nat, ghost i: nat)
    requires h.Valid() && i < |h.blocks| && h.blocks[i].used && obj == h.blocks[i].addr + HEADER
    modifies h, h.mem, h.mem.stack, h.mem.phys
    ensures old(Can(WorldOf(h), OnHeap(DoFree(h.blocks[i]))))
    ensures h.Valid() && WorldOf(h) == Do(old(WorldOf(h)), OnHeap(DoFree(old(h.blocks[i]))))
  {
    IndexIsUnique(h.blocks, i);
    h.Kfree(obj, i);
  }

  lemma IndexIsUnique(bs: seq<Block>, i: nat)
    requires Tiled(bs) && i < |bs|
    ensures bs[i] in bs && IndexOf(bs, bs[i]) == i
  {
    var j := IndexOf(bs, bs[i]);
    if j < i {
      AddrsIncrease(bs, j, i);
    } else if i < j {
      AddrsIncrease(bs, i, j);
    }
  }
}
