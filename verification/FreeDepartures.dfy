/** The three places of the free path in src/memlib.c that depart from the allocator of module
    Memlib, as they are written, and exactly when they still do what is intended. */
module FreeDepartures {
  import opened Paging
  import opened HeapSpec
  import opened HeapPages
  import opened Links

  // -------------------------------------- The whole of lines 62-79, on any memory

  /** The header that memory holds at `a`: of a block, or whatever stands there. */
  function Get(h: map<nat, Header>, a: nat): Header {
    if a in h then h[a] else Header(0, 0, false, 0)
  }

  /** Line 62: the pointer is lowered by sizeof(header_t) headers. */
  function NodeAsWritten(obj: nat): nat
    requires obj >= HEADER * HEADER
  {
    obj - HEADER * HEADER
  }

  /** Lines 65-71. */
  function JoinNextAsWritten(h: map<nat, Header>, node: nat): map<nat, Header> {
    var next := Get(h, node).next;
    if next != 0 && !Get(h, next).used then
      var h1 := h[node := Get(h, node).(length := Get(h, node).length + Get(h, next).length)];
      var behind := Get(h1, next).next;
      var h2 := if behind != 0 then h1[behind := Get(h1, behind).(prev := node)] else h1;
      h2[node := Get(h2, node).(next := Get(h2, next).next)]
    else h
  }

  /** Lines 73-79. */
  function JoinPrevAsWritten(h: map<nat, Header>, node: nat): map<nat, Header> {
    var prev := Get(h, node).prev;
    if prev != 0 && !Get(h, prev).used then
      var h1 := h[prev := Get(h, prev).(length := Get(h, node).length + Get(h, prev).length)];
      var before := Get(h1, prev).prev;
      if before != 0 then h1[before := Get(h1, before).(next := prev)] else h1
    else h
  }

  /** Lines 62-79. */
  function FreeAsWritten(h: map<nat, Header>, obj: nat): map<nat, Header>
    requires obj >= HEADER * HEADER
  {
    var node := NodeAsWritten(obj);
    JoinPrevAsWritten(JoinNextAsWritten(h[node := Get(h, node).(used := false)], node), node)
  }

  /** The list that lines 62-79 are meant to leave. */
  function Coalesced(bs: seq<Block>, i: nat): seq<Block>
    requires i < |bs|
  {
    Splice(bs, JoinedFrom(bs, i), [Joined(bs, JoinedFrom(bs, i), JoinedTo(bs, i))], JoinedTo(bs, i))
  }

  /** Only one `used` bit is written, 132 bytes below the header that is meant. */
  lemma UsedBits(h: map<nat, Header>, node: nat, a: nat)
    ensures Get(JoinNextAsWritten(h, node), a).used == Get(h, a).used
    ensures Get(JoinPrevAsWritten(h, node), a).used == Get(h, a).used
  {}

  lemma UsedBitsOfFree(h: map<nat, Header>, obj: nat, a: nat)
    requires obj >= HEADER * HEADER
    ensures Get(FreeAsWritten(h, obj), a).used == (a != NodeAsWritten(obj) && Get(h, a).used)
  {
    var node := NodeAsWritten(obj);
    var h1 := h[node := Get(h, node).(used := false)];
    UsedBits(h1, node, a);
    UsedBits(JoinNextAsWritten(h1, node), node, a);
  }

  /** What the two joins may write into a `next` and into a `prev` elsewhere. */
  lemma NextFields(h: map<nat, Header>, node: nat, a: nat)
    requires a != node
    ensures Get(JoinNextAsWritten(h, node), a).next == Get(h, a).next
    ensures Get(JoinNextAsWritten(h, node), a).prev in {Get(h, a).prev, node}
  {}

  lemma PrevFields(h: map<nat, Header>, node: nat, a: nat)
    ensures var g := JoinPrevAsWritten(h, node);
            || Get(g, a).next == Get(h, a).next
            || (Get(g, a).next != 0 && Get(h, Get(g, a).next).prev == a)
  {}

  /** Where block `i` has a free predecessor, its `next` is not redirected behind block `i`. */
  lemma NextStays(h: map<nat, Header>, bs: seq<Block>, i: nat, m: nat)
    requires Tiled(bs) && Linked(h, bs) && 0 < i < m <= |bs| && bs[i].used && !bs[i - 1].used
    requires bs[i].addr >= HEAP_START
    ensures Get(FreeAsWritten(h, bs[i].addr + HEADER), bs[i - 1].addr).next != AddrAt(bs, m)
  {
    TiledIsIncreasing(bs);
    var node, a := NodeAsWritten(bs[i].addr + HEADER), bs[i - 1].addr;
    var h1 := h[node := Get(h, node).(used := false)];
    var h2 := JoinNextAsWritten(h1, node);
    assert LinkedAt(h, bs, i - 1) && LinkedAt(h, bs, i);
    if node == a {
      NothingToJoin(h, bs, i - 1);
    } else {
      NextFields(h1, node, a);
      PrevFields(h2, node, a);
      if m < |bs| {
        assert LinkedAt(h, bs, m);
        OthersPrev(h1, node, bs[m].addr, a);
      }
    }
  }

  lemma OthersPrev(h: map<nat, Header>, node: nat, x: nat, a: nat)
    requires a != node && x != node && Get(h, x).prev != a
    ensures Get(JoinNextAsWritten(h, node), x).prev != a
  {
    NextFields(h, node, x);
  }

  /** A free block between used ones joins nothing. */
  lemma NothingToJoin(h: map<nat, Header>, bs: seq<Block>, k: nat)
    requires Tiled(bs) && Linked(h, bs) && k + 1 < |bs| && !bs[k].used
    ensures bs[k].addr in h && h[bs[k].addr := Get(h, bs[k].addr).(used := false)] == h
    ensures JoinPrevAsWritten(JoinNextAsWritten(h, bs[k].addr), bs[k].addr) == h
  {
    assert LinkedAt(h, bs, k) && LinkedAt(h, bs, k + 1) && Joint(bs, k);
    if k > 0 {
      assert LinkedAt(h, bs, k - 1) && Joint(bs, k - 1);
    }
  }

  /** As written, lines 62-79 never leave the intended list, whichever block is freed and
      whatever record stands at the address that they take for its header. Records do not
      overlap; in bytes that address can lie 4 bytes inside the header of the preceding block. */
  lemma FreeAsWrittenNeverCoalesces(h: map<nat, Header>, bs: seq<Block>, i: nat)
    requires Tiled(bs) && Linked(h, bs) && i < |bs| && bs[i].used
    ensures bs[i].addr >= HEAP_START
    ensures !Linked(FreeAsWritten(h, bs[i].addr + HEADER), Coalesced(bs, i))
  {
    AddrFromStart(bs, i);
    var n, m := JoinedFrom(bs, i), JoinedTo(bs, i);
    var cs, g := Coalesced(bs, i), FreeAsWritten(h, bs[i].addr + HEADER);
    SpliceAt(bs, n, [Joined(bs, n, m)], m, cs, n + 1);
    assert LinkedAt(h, bs, i);
    if n == i {
      UsedBitsOfFree(h, bs[i].addr + HEADER, bs[i].addr);
    } else {
      NextStays(h, bs, i, m);
      assert AddrAt(cs, n + 1) == AddrAt(bs, m);
    }
    hide FreeAsWritten;
    assert !LinkedAt(g, cs, n);
  }

  lemma PrecedingAddr(h: map<nat, Header>, bs: seq<Block>, i: nat)
    requires Tiled(bs) && Linked(h, bs) && 0 < i < |bs| && bs[i].used
    ensures HEAP_START <= bs[i - 1].addr && bs[i].addr == bs[i - 1].addr + bs[i - 1].len && Get(h, bs[i].addr).used
  {
    AddrFromStart(bs, i - 1);
    assert Joint(bs, i - 1) && LinkedAt(h, bs, i);
  }

  /** Instead they free the preceding block when it is 132 bytes long, and the block that was
      meant stays in use. */
  lemma FreesThePrecedingBlock(h: map<nat, Header>, bs: seq<Block>, i: nat)
    requires Tiled(bs) && Linked(h, bs) && 0 < i < |bs| && bs[i].used && bs[i - 1].len == 132
    ensures bs[i].addr >= HEAP_START
    ensures !Get(FreeAsWritten(h, bs[i].addr + HEADER), bs[i - 1].addr).used
    ensures Get(FreeAsWritten(h, bs[i].addr + HEADER), bs[i].addr).used
  {
    hide FreeAsWritten, Tiled, Linked, Get;
    PrecedingAddr(h, bs, i);
    UsedBitsOfFree(h, bs[i].addr + HEADER, bs[i - 1].addr);
    UsedBitsOfFree(h, bs[i].addr + HEADER, bs[i].addr);
  }

  /** Where line 63 writes: below the heap, or inside an earlier block. */
  lemma NodeAsWrittenLands(bs: seq<Block>, i: nat)
    requires Tiled(bs) && i < |bs|
    ensures bs[i].addr >= HEAP_START
    ensures var node := NodeAsWritten(bs[i].addr + HEADER);
            node < HEAP_START || exists j: nat :: j < i && bs[j].addr <= node < bs[j].addr + bs[j].len
  {
    AddrFromStart(bs, i);
    if NodeAsWritten(bs[i].addr + HEADER) >= HEAP_START {
      var j := Covering(bs, i, NodeAsWritten(bs[i].addr + HEADER));
    }
  }

  lemma {:induction false} Covering(bs: seq<Block>, i: nat, a: nat) returns (j: nat)
    requires Tiled(bs) && i < |bs| && HEAP_START <= a < bs[i].addr
    ensures j < i && bs[j].addr <= a < bs[j].addr + bs[j].len
    decreases i
  {
    assert i > 0 ==> Joint(bs, i - 1);
    if a >= bs[i - 1].addr {
      j := i - 1;
    } else {
      j := Covering(bs, i - 1, a);
    }
  }

  // ---------------------------------------------- Merging backwards, lines 73-79

  /** The list that merging backwards is meant to leave. */
  function MergedBack(bs: seq<Block>, i: nat): seq<Block>
    requires i < |bs|
  {
    if i > 0 && !bs[i - 1].used then Splice(bs, i - 1, [bs[i - 1].(len := bs[i].len + bs[i - 1].len)], i + 1)
    else bs
  }

  /** As written, and with the header found rightly, merging backwards is right exactly when
      there is nothing to merge: the predecessor becomes longer, but still points to `node`. */
  lemma MergeAsWrittenIff(h: map<nat, Header>, bs: seq<Block>, i: nat)
    requires Increasing(bs) && Linked(h, bs) && i < |bs|
    ensures Linked(JoinPrevAsWritten(h, bs[i].addr), MergedBack(bs, i)) <==> i == 0 || bs[i - 1].used
  {
    assert LinkedAt(h, bs, i);
    assert i > 0 ==> LinkedAt(h, bs, i - 1);
    if i > 0 && !bs[i - 1].used {
      var cs := MergedBack(bs, i);
      SpliceAt(bs, i - 1, [bs[i - 1].(len := bs[i].len + bs[i - 1].len)], i + 1, cs, i);
      assert AddrAt(cs, i) != bs[i].addr;
      assert !LinkedAt(JoinPrevAsWritten(h, bs[i].addr), cs, i - 1);
    }
  }

  // ------------------------------------------------ Giving back, lines 93-98

  /** Lines 96-97 look up the page at `mm_top`, which is never mapped; the page that holds
      the end of the heap is the one below. */
  lemma TopPageIsNeverMapped(s: Space)
    requires Sound(s)
    ensures s.top / PAGE_SIZE !in s.pages
    ensures s.top > HEAP_START ==> s.top / PAGE_SIZE - 1 in s.pages
  {}

  /** One turn of the loop at lines 93-99 as it is written: `page` is what the lookup of the
      page at `mm_top` yields, or uninitialised when it fails. */
  ghost function ShrinkTurn(s: Space, junk: nat): Space
    requires s.top >= PAGE_SIZE
  {
    var pn := s.top / PAGE_SIZE;
    Space(FreeStep(s.frames, if pn in s.pages then s.pages[pn] else junk), s.pages - {pn}, s.top - PAGE_SIZE)
  }

  ghost function ShrinkAsWritten(s: Space, node: nat, junk: nat): Space
    requires s.top >= PAGE_SIZE && node >= HEAP_START
    decreases s.top
  {
    if s.top - PAGE_SIZE < node then s else ShrinkAsWritten(ShrinkTurn(s, junk), node, junk)
  }

  /** The heap pages are those up to `mm_top`, which is one too many. */
  ghost predicate OneTooMany(s: Space) {
    && s.top % PAGE_SIZE == 0 && s.top >= HEAP_START
    && forall p :: p in s.pages <==> HEAP_PAGE <= p <= s.top / PAGE_SIZE
  }

  /** The frames of the pages from `hi` down to `lo` + 1. */
  ghost function FramesDown(pages: map<nat, nat>, hi: nat, lo: nat): seq<nat>
    requires forall p :: lo < p <= hi ==> p in pages
    decreases hi
  {
    if hi <= lo then [] else [pages[hi]] + FramesDown(pages, hi - 1, lo)
  }

  lemma {:induction false} FramesDownSame(a: map<nat, nat>, b: map<nat, nat>, hi: nat, lo: nat)
    requires forall p :: lo < p <= hi ==> p in a && p in b && a[p] == b[p]
    ensures FramesDown(a, hi, lo) == FramesDown(b, hi, lo)
    decreases hi
  {
    if hi > lo {
      FramesDownSame(a, b, hi - 1, lo);
    }
  }

  lemma {:induction false} LaterTurns(s: Space, node: nat, junk: nat)
    requires OneTooMany(s) && node >= HEAP_START
    ensures var t := ShrinkAsWritten(s, node, junk);
            && OneTooMany(t) && t.top / PAGE_SIZE <= s.top / PAGE_SIZE && t.top / PAGE_SIZE in t.pages
            && t.frames.free == s.frames.free + FramesDown(s.pages, s.top / PAGE_SIZE, t.top / PAGE_SIZE)
            && (forall p :: p in t.pages ==> t.pages[p] == s.pages[p])
    decreases s.top
  {
    if s.top - PAGE_SIZE >= node {
      var u, pn := ShrinkTurn(s, junk), s.top / PAGE_SIZE;
      LaterTurns(u, node, junk);
      var t := ShrinkAsWritten(u, node, junk);
      hide ShrinkAsWritten;
      FramesDownSame(u.pages, s.pages, pn - 1, t.top / PAGE_SIZE);
      PushedFirst(s.frames.free, s.pages[pn], FramesDown(s.pages, pn - 1, t.top / PAGE_SIZE));
    }
  }

  lemma PushedFirst(free: seq<nat>, f: nat, more: seq<nat>)
    ensures (free + [f]) + more == free + ([f] + more)
  {}

  lemma FirstTurn(s: Space, junk: nat)
    requires Sound(s) && s.top > HEAP_START
    ensures var u := ShrinkTurn(s, junk);
            && OneTooMany(u) && u.pages == s.pages && u.frames.free == s.frames.free + [junk]
            && u.top / PAGE_SIZE == s.top / PAGE_SIZE - 1 && u.top >= HEAP_START
            && forall p :: HEAP_PAGE <= p <= s.top / PAGE_SIZE - 1 ==> p in s.pages
  {
    TopPageIsNeverMapped(s);
  }

  lemma TurnUnfolds(s: Space, node: nat, junk: nat)
    requires s.top - PAGE_SIZE >= node >= HEAP_START
    ensures ShrinkAsWritten(s, node, junk) == ShrinkAsWritten(ShrinkTurn(s, junk), node, junk)
  {}

  lemma PageAboveStart(s: Space)
    requires OneTooMany(s)
    ensures s.top / PAGE_SIZE >= HEAP_PAGE
  {}

  /** What the loop pushes on the frame stack as it is written, once it turns at all: first the
      uninitialised word, then the frames of all pages but the lowest, which stays mapped behind
      the heap. */
  lemma FramesAsWritten(s: Space, node: nat, junk: nat)
    requires Sound(s) && node >= HEAP_START && s.top - PAGE_SIZE >= node
    ensures var t, pn := ShrinkAsWritten(s, node, junk), s.top / PAGE_SIZE;
            && t.top / PAGE_SIZE <= pn - 1 && t.top / PAGE_SIZE in t.pages
            && (forall p :: t.top / PAGE_SIZE < p <= pn - 1 ==> p in s.pages)
            && t.frames.free == s.frames.free + ([junk] + FramesDown(s.pages, pn - 1, t.top / PAGE_SIZE))
  {
    hide Sound, Disjoint, ShrinkAsWritten, FramesDown, ShrinkTurn, OneTooMany;
    var u, pn := ShrinkTurn(s, junk), s.top / PAGE_SIZE;
    FirstTurn(s, junk);
    TurnUnfolds(s, node, junk);
    LaterTurns(u, node, junk);
    var t := ShrinkAsWritten(u, node, junk);
    PageAboveStart(t);
    PushedFirst(s.frames.free, junk, FramesDown(s.pages, pn - 1, t.top / PAGE_SIZE));
  }

  /** As written, frames and pages are still sound afterwards if and only if there was nothing
      to give back, whatever the uninitialised word was. */
  lemma ShrinkAsWrittenIff(s: Space, node: nat, junk: nat)
    requires Sound(s) && node >= HEAP_START
    ensures Sound(ShrinkAsWritten(s, node, junk)) <==> s.top - PAGE_SIZE < node
  {
    if s.top - PAGE_SIZE >= node {
      FramesAsWritten(s, node, junk);
    }
  }

  // ------------------------------------------------------------- Examples

  /** Two blocks in use, the first of 132 bytes: freeing the second one frees the first. */
  lemma FreeFailsOnExample()
    ensures var bs := [Block(HEAP_START, 132, true), Block(HEAP_START + 132, 32, true)];
            var h := map[HEAP_START := Header(0, HEAP_START + 132, true, 132),
                         HEAP_START + 132 := Header(HEAP_START, 0, true, 32)];
            && Tiled(bs) && Linked(h, bs)
            && FreeAsWritten(h, HEAP_START + 144)
            == map[HEAP_START := Header(0, HEAP_START + 132, false, 132),
                   HEAP_START + 132 := Header(HEAP_START, 0, true, 32)]
  {
    var bs := [Block(HEAP_START, 132, true), Block(HEAP_START + 132, 32, true)];
    var h := map[HEAP_START := Header(0, HEAP_START + 132, true, 132),
                 HEAP_START + 132 := Header(HEAP_START, 0, true, 32)];
    assert Joint(bs, 0) && LinkedAt(h, bs, 0) && LinkedAt(h, bs, 1);
  }

  /** A free block, one just freed, and one in use: the merge leaves the first pointing to the
      second, into the middle of its new length. */
  lemma MergeFailsOnExample()
    ensures var bs := [Block(HEAP_START, 32, false), Block(HEAP_START + 32, 32, false),
                       Block(HEAP_START + 64, 32, true)];
            var h := map[HEAP_START := Header(0, HEAP_START + 32, false, 32),
                         HEAP_START + 32 := Header(HEAP_START, HEAP_START + 64, false, 32),
                         HEAP_START + 64 := Header(HEAP_START + 32, 0, true, 32)];
            && Linked(h, bs)
            && Get(JoinPrevAsWritten(h, HEAP_START + 32), HEAP_START) == Header(0, HEAP_START + 32, false, 64)
            && !Linked(JoinPrevAsWritten(h, HEAP_START + 32), MergedBack(bs, 1))
  {
    var bs := [Block(HEAP_START, 32, false), Block(HEAP_START + 32, 32, false), Block(HEAP_START + 64, 32, true)];
    var h := map[HEAP_START := Header(0, HEAP_START + 32, false, 32),
                 HEAP_START + 32 := Header(HEAP_START, HEAP_START + 64, false, 32),
                 HEAP_START + 64 := Header(HEAP_START + 32, 0, true, 32)];
    assert LinkedAt(h, bs, 0) && LinkedAt(h, bs, 1) && LinkedAt(h, bs, 2);
    MergeAsWrittenIff(h, bs, 1);
  }

  /** One heap page in frame 0x5000 and nothing left in it: the uninitialised word goes on the
      frame stack, and the page stays mapped behind the heap. */
  lemma ShrinkFailsOnExample(junk: nat)
    ensures var s := Space(Frames([], map[], {0x5000}), map[HEAP_PAGE := 0x5000], HEAP_START + PAGE_SIZE);
            var t := ShrinkAsWritten(s, HEAP_START, junk);
            && Sound(s) && t.frames.free == [junk] && t.pages == s.pages && t.top == HEAP_START && !Sound(t)
  {
    var s := Space(Frames([], map[], {0x5000}), map[HEAP_PAGE := 0x5000], HEAP_START + PAGE_SIZE);
    assert (HEAP_START + PAGE_SIZE) / PAGE_SIZE == HEAP_PAGE + 1;
    var u := ShrinkTurn(s, junk);
    assert u.pages == s.pages && u.top == HEAP_START;
    assert ShrinkAsWritten(u, HEAP_START, junk) == u;
    assert HEAP_PAGE in u.pages && u.top / PAGE_SIZE == HEAP_PAGE;
  }
}
