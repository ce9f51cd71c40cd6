/** The two lines of the split in src/memlib.c that depart from the allocator of module Memlib,
    as they are written, and exactly when they still do what is intended. */
module Departures {
  import opened HeapSpec
  import opened Links

  // ------------------------------------------------- Splitting, lines 16-26

  /** Lines 18-24: the header of the rest goes to node + node->length, with the length that
      the node still has; the old successor keeps its `prev`. */
  function SplitAsWritten(h: map<nat, Header>, node: nat, size: nat): map<nat, Header>
    requires node in h && h[node].length >= size
  {
    var new_node := node + h[node].length;
    var rest := Header(node, h[node].next, false, h[node].length - size);
    h[new_node := rest][node := h[node].(next := new_node, length := size, used := true)]
  }

  /** The same with the rest placed at node + size, as intended, but without lines 67-69's
      counterpart for the `prev` of the successor. */
  function SplitWithoutPrev(h: map<nat, Header>, node: nat, size: nat): map<nat, Header>
    requires node in h && h[node].length >= size
  {
    var new_node := node + size;
    var rest := Header(node, h[node].next, false, h[node].length - size);
    h[new_node := rest][node := h[node].(next := new_node, length := size, used := true)]
  }

  /** Lines 16-26 for the block that was found. */
  function TakeAsWritten(h: map<nat, Header>, node: nat, size: nat): map<nat, Header>
    requires node in h && h[node].length >= size
  {
    if h[node].length > HEADER + size then SplitAsWritten(h, node, size)
    else h[node := h[node].(used := true)]
  }

  /** What the split writes lands on the header of the successor, which is in use: it is
      marked free and points to itself, so a walk over the list no longer ends. */
  lemma SplitOverwritesSuccessor(h: map<nat, Header>, bs: seq<Block>, i: nat, size: nat)
    requires Tiled(bs) && Linked(h, bs) && i < |bs| && !bs[i].used && bs[i].len > HEADER + size
    ensures i + 1 < |bs| && bs[i + 1].used
    ensures bs[i].addr in h && h[bs[i].addr].length >= size
    ensures var h1 := SplitAsWritten(h, bs[i].addr, size);
            && bs[i + 1].addr in h1
            && h1[bs[i + 1].addr].next == bs[i + 1].addr
            && !h1[bs[i + 1].addr].used
  {
    assert Joint(bs, i);
    assert LinkedAt(h, bs, i);
  }

  /** As written, `kmalloc` leaves the intended list behind exactly when it does not split. */
  lemma TakeAsWrittenIff(h: map<nat, Header>, bs: seq<Block>, i: nat, size: nat)
    requires Tiled(bs) && Linked(h, bs) && i < |bs| && Fits(bs[i], size) && size >= HEADER
    ensures bs[i].addr in h && h[bs[i].addr].length >= size
    ensures Linked(TakeAsWritten(h, bs[i].addr, size), Take(bs, i, size)) <==> bs[i].len <= HEADER + size
  {
    assert LinkedAt(h, bs, i);
    var cs := Take(bs, i, size);
    if bs[i].len > HEADER + size {
      SplitOverwritesSuccessor(h, bs, i, size);
      assert cs[i + 2] == bs[i + 1];
      assert !LinkedAt(TakeAsWritten(h, bs[i].addr, size), cs, i + 2);
    } else {
      MarkIsRight(h, bs, i, size);
    }
  }

  lemma MarkIsRight(h: map<nat, Header>, bs: seq<Block>, i: nat, size: nat)
    requires Tiled(bs) && Linked(h, bs) && i < |bs| && size <= bs[i].len <= HEADER + size
    ensures bs[i].addr in h
    ensures Linked(h[bs[i].addr := h[bs[i].addr].(used := true)], Take(bs, i, size))
  {
    assert LinkedAt(h, bs, i);
    TiledIsIncreasing(bs);
    assert i + 1 < |bs| ==> LinkedAt(h, bs, i + 1);
    assert Take(bs, i, size) == Splice(bs, i, [bs[i].(used := true)], i + 1);
    LinkJoined(h, bs, i, bs[i].(used := true), i + 1, h[bs[i].addr := h[bs[i].addr].(used := true)]);
  }

  /** Placing the rest rightly is not enough: without the `prev` of the successor no split
      leaves a list whose links are inverse to each other. */
  lemma SplitNeedsPrev(h: map<nat, Header>, bs: seq<Block>, i: nat, size: nat)
    requires Tiled(bs) && Linked(h, bs) && i < |bs| && !bs[i].used && bs[i].len > HEADER + size && size >= HEADER
    ensures bs[i].addr in h && h[bs[i].addr].length >= size
    ensures !Linked(SplitWithoutPrev(h, bs[i].addr, size), Take(bs, i, size))
  {
    assert Joint(bs, i) && LinkedAt(h, bs, i) && LinkedAt(h, bs, i + 1);
    var cs := Take(bs, i, size);
    assert cs[i + 2] == bs[i + 1] && cs[i + 1].addr == bs[i].addr + size;
    assert !LinkedAt(SplitWithoutPrev(h, bs[i].addr, size), cs, i + 2);
  }

  // ------------------------------------------------------------- An example

  /** Three blocks of which the middle one is free, with their headers. */
  function ExampleBlocks(): seq<Block> {
    [Block(HEAP_START, 32, true), Block(HEAP_START + 32, 100, false), Block(HEAP_START + 132, 32, true)]
  }

  function ExampleHeaders(): map<nat, Header> {
    map[HEAP_START := Header(0, HEAP_START + 32, true, 32),
        HEAP_START + 32 := Header(HEAP_START, HEAP_START + 132, false, 100),
        HEAP_START + 132 := Header(HEAP_START + 32, 0, true, 32)]
  }

  /** A kmalloc of 20 bytes, 32 with the header, splits the free block and, as written,
      destroys the list. */
  lemma SplitFailsOnExample()
    ensures Tiled(ExampleBlocks()) && Linked(ExampleHeaders(), ExampleBlocks())
    ensures FirstFit(ExampleBlocks(), 32) == 1
    ensures HEAP_START + 32 in ExampleHeaders()
    ensures !Linked(TakeAsWritten(ExampleHeaders(), HEAP_START + 32, 32), Malloc(ExampleBlocks(), 32))
  {
    var h, bs := ExampleHeaders(), ExampleBlocks();
    assert LinkedAt(h, bs, 0) && LinkedAt(h, bs, 1) && LinkedAt(h, bs, 2);
    assert Joint(bs, 0) && Joint(bs, 1);
    assert !Fits(bs[0], 32) && Fits(bs[1], 32);
    TakeAsWrittenIff(h, bs, 1, 32);
  }
}
