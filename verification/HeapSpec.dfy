/** The intended allocator of src/memlib.c as functions on block lists and on the pages
    below the heap, and what holds of it over every run. */
module HeapSpec {

  /** V_MM_START and sizeof(header_t). */
  const HEAP_START := 0xE000_0000
  const HEADER := 12
  const HEAP_PAGE := 0xE_0000

  // --------------------------------------------------------------- Block lists

  /** A block with its header: `len` counts both. */
  datatype Block = Block(addr: nat, len: nat, used: bool)

  function EndOf(bs: seq<Block>): nat {
    if bs == [] then HEAP_START else bs[|bs| - 1].addr + bs[|bs| - 1].len
  }

  /** Two neighbours meet, and they are not both free. */
  ghost predicate Meet(a: Block, b: Block) {
    a.addr + a.len == b.addr && (a.used || b.used)
  }

  ghost predicate Joint(bs: seq<Block>, i: nat)
    requires i + 1 < |bs|
  {
    Meet(bs[i], bs[i + 1])
  }

  /** The blocks tile the heap, no two neighbours are free and the last one is in use. */
  ghost predicate Tiled(bs: seq<Block>) {
    && (bs != [] ==> bs[0].addr == HEAP_START && bs[|bs| - 1].used)
    && (forall i :: 0 <= i < |bs| ==> bs[i].len >= HEADER)
    && (forall i: nat :: i + 1 < |bs| ==> Joint(bs, i))
  }

  predicate Fits(b: Block, size: nat) {
    !b.used && b.len >= size
  }

  /** The first free block that is large enough, or the number of blocks. */
  function FirstFit(bs: seq<Block>, size: nat): (i: nat)
    ensures i <= |bs| && (i < |bs| ==> Fits(bs[i], size))
    ensures forall k :: 0 <= k < i ==> !Fits(bs[k], size)
  {
    if bs == [] then 0 else if Fits(bs[0], size) then 0
    else
      var i := FirstFit(bs[1..], size);
      assert forall k :: 1 <= k < |bs| ==> bs[k] == bs[1..][k - 1];
      1 + i
  }

  /** `kmalloc` (src/memlib.c:9-57); `size` includes the header. A larger block is split
      when something is left beyond another header. */
  function Malloc(bs: seq<Block>, size: nat): seq<Block> {
    var i := FirstFit(bs, size);
    if i == |bs| then bs + [Block(EndOf(bs), size, true)]
    else Take(bs, i, size)
  }

  function Take(bs: seq<Block>, i: nat, size: nat): seq<Block>
    requires i < |bs| && bs[i].len >= size
  {
    var b := bs[i];
    if b.len > HEADER + size then
      bs[..i] + [Block(b.addr, size, true), Block(b.addr + size, b.len - size, false)] + bs[i + 1..]
    else bs[i := b.(used := true)]
  }

  function MallocAddr(bs: seq<Block>, size: nat): nat {
    var i := FirstFit(bs, size);
    if i == |bs| then EndOf(bs) else bs[i].addr
  }

  /** The block that is freed, together with a free successor. */
  function JoinNext(bs: seq<Block>, i: nat): (Block, seq<Block>)
    requires i < |bs|
  {
    if i + 1 < |bs| && !bs[i + 1].used
    then (Block(bs[i].addr, bs[i].len + bs[i + 1].len, false), bs[i + 2..])
    else (bs[i].(used := false), bs[i + 1..])
  }

  /** ... and together with a free predecessor. */
  function JoinPrev(bs: seq<Block>, i: nat, b: Block): (seq<Block>, Block)
    requires i < |bs|
  {
    if i > 0 && !bs[i - 1].used then (bs[..i - 1], Block(bs[i - 1].addr, bs[i - 1].len + b.len, false))
    else (bs[..i], b)
  }

  /** `kfree` (src/memlib.c:61-91): coalesces, and gives up a free block at the end. */
  function Release(bs: seq<Block>, i: nat): seq<Block>
    requires i < |bs|
  {
    var (b1, behind) := JoinNext(bs, i);
    var (before, b) := JoinPrev(bs, i, b1);
    if behind == [] then before else before + [b] + behind
  }

  /** Blocks `n` up to `m` replaced by `mid`. */
  function Splice(bs: seq<Block>, n: nat, mid: seq<Block>, m: nat): seq<Block>
    requires n <= m <= |bs|
  {
    bs[..n] + mid + bs[m..]
  }

  /** Where the blocks of a splice come from. */
  lemma SpliceAt(bs: seq<Block>, n: nat, mid: seq<Block>, m: nat, cs: seq<Block>, d: nat)
    requires n <= m <= |bs| && cs == Splice(bs, n, mid, m) && d == n + |mid|
    ensures |cs| == d + |bs| - m
    ensures forall k :: 0 <= k < n ==> cs[k] == bs[k]
    ensures forall k :: n <= k < d ==> cs[k] == mid[k - n]
    ensures forall k :: d <= k < |cs| ==> cs[k] == bs[k - d + m]
  {}

  /** Replacing a stretch of blocks by blocks that tile the same stretch keeps the tiling. */
  lemma SpliceKeepsTiling(bs: seq<Block>, n: nat, mid: seq<Block>, m: nat)
    requires Tiled(bs) && n < m <= |bs| && 1 <= |mid| <= 2
    requires mid[0].addr == bs[n].addr
    requires forall k :: 0 <= k < |mid| ==> mid[k].len >= HEADER
    requires |mid| == 2 ==> Meet(mid[0], mid[1])
    requires n > 0 ==> Meet(bs[n - 1], mid[0])
    requires if m < |bs| then Meet(mid[|mid| - 1], bs[m])
             else mid[|mid| - 1].used && EndOf(mid) == EndOf(bs)
    ensures Tiled(Splice(bs, n, mid, m)) && EndOf(Splice(bs, n, mid, m)) == EndOf(bs)
  {
    var cs := Splice(bs, n, mid, m);
    var d := n + |mid|;
    SpliceAt(bs, n, mid, m, cs, d);
    forall i: nat | i + 1 < |cs| ensures Joint(cs, i) {
      if i + 1 < n {
        assert Joint(bs, i);
      } else if i >= d {
        assert Joint(bs, i - d + m);
      }
    }
  }

  /** Giving up a free block at the end keeps the tiling. */
  lemma CutKeepsTiling(bs: seq<Block>, n: nat)
    requires Tiled(bs) && n < |bs| && (n > 0 ==> bs[n - 1].used)
    ensures Tiled(bs[..n]) && EndOf(bs[..n]) == bs[n].addr
  {
    forall i: nat | i + 1 < n ensures Joint(bs[..n], i) {
      assert Joint(bs, i);
    }
    if n > 0 {
      assert Joint(bs, n - 1);
    }
  }

  lemma TakeIsSplice(bs: seq<Block>, i: nat, size: nat, mid: seq<Block>)
    requires i < |bs| && bs[i].len >= size
    requires mid == if bs[i].len > HEADER + size
                    then [Block(bs[i].addr, size, true), Block(bs[i].addr + size, bs[i].len - size, false)]
                    else [bs[i].(used := true)]
    ensures Take(bs, i, size) == Splice(bs, i, mid, i + 1)
  {}

  lemma TakeSplits(bs: seq<Block>, i: nat, size: nat, b: Block)
    requires Tiled(bs) && i < |bs| && b == bs[i] && !b.used && b.len > HEADER + size && size >= HEADER
    ensures Tiled(Take(bs, i, size)) && EndOf(Take(bs, i, size)) == EndOf(bs)
  {
    assert i > 0 ==> Joint(bs, i - 1);
    assert i + 1 < |bs| ==> Joint(bs, i);
    var mid := [Block(b.addr, size, true), Block(b.addr + size, b.len - size, false)];
    TakeIsSplice(bs, i, size, mid);
    hide Take, Splice;
    SpliceKeepsTiling(bs, i, mid, i + 1);
  }

  lemma TakeMarks(bs: seq<Block>, i: nat, size: nat, b: Block)
    requires Tiled(bs) && i < |bs| && b == bs[i] && size <= b.len <= HEADER + size
    ensures Tiled(Take(bs, i, size)) && EndOf(Take(bs, i, size)) == EndOf(bs)
  {
    assert i > 0 ==> Joint(bs, i - 1);
    assert i + 1 < |bs| ==> Joint(bs, i);
    TakeIsSplice(bs, i, size, [b.(used := true)]);
    hide Take, Splice;
    SpliceKeepsTiling(bs, i, [b.(used := true)], i + 1);
  }

  lemma TakeKeepsTiling(bs: seq<Block>, i: nat, size: nat)
    requires Tiled(bs) && i < |bs| && Fits(bs[i], size) && size >= HEADER
    ensures Tiled(Take(bs, i, size)) && EndOf(Take(bs, i, size)) == EndOf(bs)
  {
    if bs[i].len > HEADER + size {
      TakeSplits(bs, i, size, bs[i]);
    } else {
      TakeMarks(bs, i, size, bs[i]);
    }
  }

  /** Every `kmalloc` keeps the tiling. */
  lemma MallocKeepsTiling(bs: seq<Block>, size: nat)
    requires Tiled(bs) && size >= HEADER
    ensures Tiled(Malloc(bs, size))
    ensures EndOf(Malloc(bs, size)) == if FirstFit(bs, size) == |bs| then EndOf(bs) + size else EndOf(bs)
  {
    var i := FirstFit(bs, size);
    if i < |bs| {
      TakeKeepsTiling(bs, i, size);
    } else {
      var cs := Malloc(bs, size);
      forall k: nat | k + 1 < |cs| ensures Joint(cs, k) {
        assert k + 1 < |bs| ==> Joint(bs, k);
      }
    }
  }

  /** The stretch of blocks that `kfree` joins: from `n` up to `m`, into one free block. */
  function JoinedFrom(bs: seq<Block>, i: nat): (n: nat)
    requires i < |bs|
    ensures n <= i
  {
    if i > 0 && !bs[i - 1].used then i - 1 else i
  }

  function JoinedTo(bs: seq<Block>, i: nat): (m: nat)
    requires i < |bs|
    ensures i < m <= |bs|
  {
    if i + 1 < |bs| && !bs[i + 1].used then i + 2 else i + 1
  }

  /** One free block over blocks `n` up to `m`. */
  function Joined(bs: seq<Block>, n: nat, m: nat): Block
    requires n < m <= |bs|
  {
    var end := bs[m - 1].addr + bs[m - 1].len;
    Block(bs[n].addr, if end >= bs[n].addr then end - bs[n].addr else 0, false)
  }

  lemma NextIs(bs: seq<Block>, i: nat, m: nat)
    requires Tiled(bs) && i < |bs| && m == JoinedTo(bs, i)
    ensures JoinNext(bs, i) == (Joined(bs, i, m), bs[m..])
  {
    assert i + 1 < |bs| ==> Joint(bs, i);
  }

  lemma PrevIs(bs: seq<Block>, i: nat, n: nat, m: nat)
    requires Tiled(bs) && i < |bs| && n == JoinedFrom(bs, i) && m == JoinedTo(bs, i)
    ensures bs[m - 1].addr + bs[m - 1].len >= bs[n].addr + HEADER
    ensures JoinPrev(bs, i, Joined(bs, i, m)) == (bs[..n], Joined(bs, n, m))
  {
    assert i > 0 ==> Joint(bs, i - 1);
    assert i + 1 < |bs| ==> Joint(bs, i);
  }

  lemma FreeJoins(bs: seq<Block>, i: nat, n: nat, m: nat)
    requires Tiled(bs) && i < |bs| && n == JoinedFrom(bs, i) && m == JoinedTo(bs, i)
    ensures bs[m - 1].addr + bs[m - 1].len >= bs[n].addr + HEADER
    ensures Release(bs, i) == if m == |bs| then bs[..n] else Splice(bs, n, [Joined(bs, n, m)], m)
  {
    NextIs(bs, i, m);
    PrevIs(bs, i, n, m);
    hide Tiled, JoinNext, JoinPrev, Joined;
    assert bs[m..] == [] <==> m == |bs|;
  }

  /** Every `kfree` keeps the tiling. */
  lemma FreeKeepsTiling(bs: seq<Block>, i: nat)
    requires Tiled(bs) && i < |bs| && bs[i].used
    ensures Tiled(Release(bs, i)) && EndOf(Release(bs, i)) <= EndOf(bs)
  {
    var n, m := JoinedFrom(bs, i), JoinedTo(bs, i);
    FreeJoins(bs, i, n, m);
    assert n > 0 ==> Joint(bs, n - 1);
    assert m < |bs| ==> Joint(bs, m - 1);
    if m == |bs| {
      CutKeepsTiling(bs, n);
      AddrMonotone(bs, n);
    } else {
      SpliceKeepsTiling(bs, n, [Joined(bs, n, m)], m);
    }
  }

  /** Every block lies between the start of the heap and its end. */
  lemma {:induction false} AddrMonotone(bs: seq<Block>, i: nat)
    requires Tiled(bs) && i < |bs|
    ensures bs[i].addr + bs[i].len <= EndOf(bs)
    decreases |bs| - i
  {
    if i + 1 < |bs| {
      assert Joint(bs, i);
      AddrMonotone(bs, i + 1);
    }
  }

  lemma {:induction false} AddrFromStart(bs: seq<Block>, i: nat)
    requires Tiled(bs) && i < |bs|
    ensures HEAP_START <= bs[i].addr
    decreases i
  {
    if i > 0 {
      assert Joint(bs, i - 1);
      AddrFromStart(bs, i - 1);
    }
  }

  // --------------------------------------------------------------- Live blocks

  /** The blocks in use: where they are and how large. */
  ghost function Live(bs: seq<Block>): set<Block> {
    set b | b in bs && b.used
  }

  lemma AddrsIncrease(bs: seq<Block>, i: nat, j: nat)
    requires Tiled(bs) && i < j < |bs|
    ensures bs[i].addr + bs[i].len <= bs[j].addr
    decreases j - i
  {
    assert Joint(bs, j - 1);
    if i + 1 < j {
      AddrsIncrease(bs, i, j - 1);
    }
  }

  /** Live blocks do not overlap. */
  lemma LiveAreDisjoint(bs: seq<Block>, b: Block, c: Block)
    requires Tiled(bs) && b in bs && c in bs && b != c
    ensures b.addr + b.len <= c.addr || c.addr + c.len <= b.addr
  {
    var i :| 0 <= i < |bs| && bs[i] == b;
    var j :| 0 <= j < |bs| && bs[j] == c;
    if i < j { AddrsIncrease(bs, i, j); } else { AddrsIncrease(bs, j, i); }
  }

  lemma LiveOfSplice(bs: seq<Block>, n: nat, mid: seq<Block>, m: nat)
    requires n <= m <= |bs|
    ensures Live(Splice(bs, n, mid, m)) == Live(bs[..n]) + Live(mid) + Live(bs[m..])
    ensures bs == Splice(bs, n, bs[n..m], m)
  {}

  /** A free block replaced by parts of which one is live. */
  lemma LiveAfterTake(bs: seq<Block>, i: nat, mid: seq<Block>, c: Block)
    requires i < |bs| && !bs[i].used && Live(mid) == {c}
    ensures Live(Splice(bs, i, mid, i + 1)) == Live(bs) + {c}
  {
    LiveOfSplice(bs, i, mid, i + 1);
    LiveOfSplice(bs, i, bs[i..i + 1], i + 1);
    assert bs[i..i + 1] == [bs[i]];
    assert Live([bs[i]]) == {};
  }

  lemma LiveOfPair(c: Block, d: Block)
    requires c.used && !d.used
    ensures Live([c]) == {c} && Live([c, d]) == {c}
  {}

  /** A block taken is used at its old address, cut to size when another header fits behind. */
  lemma TakeAddsOne(bs: seq<Block>, i: nat, size: nat) returns (len: nat)
    requires Tiled(bs) && i < |bs| && Fits(bs[i], size)
    ensures size <= len
    ensures Live(Take(bs, i, size)) == Live(bs) + {Block(bs[i].addr, len, true)}
    ensures Block(bs[i].addr, len, true) !in Live(bs)
  {
    var b := bs[i];
    len := if b.len > HEADER + size then size else b.len;
    var c, d := Block(b.addr, len, true), Block(b.addr + size, b.len - size, false);
    LiveOfPair(c, d);
    var mid := if b.len > HEADER + size then [c, d] else [c];
    TakeIsSplice(bs, i, size, mid);
    LiveAfterTake(bs, i, mid, c);
    AddrIsUnique(bs, i, c);
  }

  /** `kmalloc` makes exactly one block live; all others stay where they are. */
  lemma MallocAddsOne(bs: seq<Block>, size: nat) returns (len: nat)
    requires Tiled(bs) && size >= HEADER
    ensures size <= len
    ensures Live(Malloc(bs, size)) == Live(bs) + {Block(MallocAddr(bs, size), len, true)}
    ensures Block(MallocAddr(bs, size), len, true) !in Live(bs)
  {
    var i := FirstFit(bs, size);
    if i == |bs| {
      len := size;
      NewAddrIsNew(bs, size);
      LiveOfSplice(bs, i, [Block(MallocAddr(bs, size), size, true)], i);
    } else {
      len := TakeAddsOne(bs, i, size);
    }
  }

  lemma AddrIsUnique(bs: seq<Block>, i: nat, c: Block)
    requires Tiled(bs) && i < |bs| && c.addr == bs[i].addr && c != bs[i]
    ensures c !in bs
  {
    if c in bs {
      var j :| 0 <= j < |bs| && bs[j] == c;
      if i < j { AddrsIncrease(bs, i, j); } else { AddrsIncrease(bs, j, i); }
    }
  }

  lemma NewAddrIsNew(bs: seq<Block>, size: nat)
    requires Tiled(bs)
    ensures Block(EndOf(bs), size, true) !in bs
  {
    if Block(EndOf(bs), size, true) in bs {
      var j :| 0 <= j < |bs| && bs[j] == Block(EndOf(bs), size, true);
      AddrMonotone(bs, j);
    }
  }

  /** Of the blocks that are joined, only the freed one was live. */
  lemma LiveOfJoined(bs: seq<Block>, i: nat, mid: seq<Block>)
    requires i < |bs| && bs[i].used && mid == bs[JoinedFrom(bs, i)..JoinedTo(bs, i)]
    ensures Live(mid) == {bs[i]}
  {
    var n := JoinedFrom(bs, i);
    forall b | b in Live(mid) ensures b == bs[i] {
      var k :| 0 <= k < |mid| && mid[k] == b;
      assert mid[k] == bs[n + k];
    }
    assert mid[i - n] == bs[i];
  }

  lemma LiveWithout(bs: seq<Block>, i: nat, n: nat, m: nat)
    requires Tiled(bs) && i < |bs| && bs[i].used && n == JoinedFrom(bs, i) && m == JoinedTo(bs, i)
    ensures Live(bs[..n]) + Live(bs[m..]) == Live(bs) - {bs[i]}
  {
    LiveOfSplice(bs, n, bs[n..m], m);
    LiveOfJoined(bs, i, bs[n..m]);
    OnlyOnce(bs, i, n, m);
  }

  /** `kfree` ends the life of exactly the block it is given; all others stay where they are. */
  lemma FreeRemovesOne(bs: seq<Block>, i: nat)
    requires Tiled(bs) && i < |bs| && bs[i].used
    ensures Live(Release(bs, i)) == Live(bs) - {bs[i]}
  {
    var n, m := JoinedFrom(bs, i), JoinedTo(bs, i);
    FreeJoins(bs, i, n, m);
    LiveWithout(bs, i, n, m);
    if m < |bs| {
      var joined := Joined(bs, n, m);
      LiveOfSplice(bs, n, [joined], m);
      assert Live([joined]) == {};
    } else {
      assert bs[m..] == [] && Live([]) == {};
    }
  }

  lemma OnlyOnce(bs: seq<Block>, i: nat, n: nat, m: nat)
    requires Tiled(bs) && n <= i < m <= |bs|
    ensures bs[i] !in bs[..n] && bs[i] !in bs[m..]
  {
    if bs[i] in bs[..n] {
      var j :| 0 <= j < n && bs[..n][j] == bs[i];
      AddrsIncrease(bs, j, i);
    }
    if bs[i] in bs[m..] {
      var j :| 0 <= j < |bs| - m && bs[m..][j] == bs[i];
      AddrsIncrease(bs, i, j + m);
    }
  }

  // ------------------------------------------------------------------- Undoing

  lemma FreeUndoesSplit(bs: seq<Block>, i: nat, size: nat)
    requires Tiled(bs) && i < |bs| && !bs[i].used && bs[i].len > HEADER + size
    ensures Release(Take(bs, i, size), i) == bs
  {
    var b := bs[i];
    assert i > 0 ==> Joint(bs, i - 1) && bs[i - 1].used;
    assert i + 1 < |bs| ==> Joint(bs, i) && bs[i + 1].used;
    hide Tiled, Joint;
    var cs := Take(bs, i, size);
    assert cs[..i] == bs[..i] && cs[i + 2..] == bs[i + 1..];
    assert cs[i] == Block(b.addr, size, true) && cs[i + 1] == Block(b.addr + size, b.len - size, false);
    assert i > 0 ==> cs[i - 1] == bs[i - 1];
    assert bs == bs[..i] + [b] + bs[i + 1..];
  }

  lemma FreeUndoesMark(bs: seq<Block>, i: nat, size: nat)
    requires Tiled(bs) && i < |bs| && !bs[i].used && size <= bs[i].len <= HEADER + size
    ensures Release(Take(bs, i, size), i) == bs
  {
    assert i > 0 ==> Joint(bs, i - 1);
    assert i + 1 < |bs| ==> Joint(bs, i);
    var cs := Take(bs, i, size);
    assert cs[..i] == bs[..i] && cs[i + 1..] == bs[i + 1..];
    assert bs == bs[..i] + [bs[i]] + bs[i + 1..];
  }

  lemma FreeUndoesAppend(bs: seq<Block>, size: nat)
    requires Tiled(bs)
    ensures Release(bs + [Block(EndOf(bs), size, true)], |bs|) == bs
  {
    var cs := bs + [Block(EndOf(bs), size, true)];
    assert cs[..|bs|] == bs && cs[|bs| + 1..] == [];
    assert |bs| > 0 ==> cs[|bs| - 1] == bs[|bs| - 1];
  }

  /** Freeing what was just allocated restores the block list exactly. */
  lemma FreeUndoesMalloc(bs: seq<Block>, size: nat, i: nat)
    requires Tiled(bs) && size >= HEADER && i == FirstFit(bs, size)
    ensures i < |Malloc(bs, size)| && Malloc(bs, size)[i].used
    ensures Malloc(bs, size)[i].addr == MallocAddr(bs, size)
    ensures Release(Malloc(bs, size), i) == bs
  {
    if i == |bs| {
      FreeUndoesAppend(bs, size);
    } else if bs[i].len > HEADER + size {
      FreeUndoesSplit(bs, i, size);
    } else {
      FreeUndoesMark(bs, i, size);
    }
  }

  // ---------------------------------------------------------------------- Runs

  /** A call of kmalloc for `size` bytes and a header, or of kfree with a live block. */
  datatype Call = DoMalloc(size: nat) | DoFree(block: Block)

  ghost predicate Allowed(bs: seq<Block>, c: Call) {
    match c
    case DoMalloc(size) => size >= HEADER
    case DoFree(b) => b in Live(bs)
  }

  function IndexOf(bs: seq<Block>, b: Block): (i: nat)
    requires b in bs
    ensures i < |bs| && bs[i] == b
  {
    if bs[0] == b then 0 else 1 + IndexOf(bs[1..], b)
  }

  ghost function AfterCall(bs: seq<Block>, c: Call): seq<Block>
    requires Allowed(bs, c)
  {
    match c
    case DoMalloc(size) => Malloc(bs, size)
    case DoFree(b) => Release(bs, IndexOf(bs, b))
  }

  ghost predicate HeapRun(bs: seq<Block>, calls: seq<Call>)
    decreases |calls|
  {
    calls == [] || (Allowed(bs, calls[0]) && HeapRun(AfterCall(bs, calls[0]), calls[1..]))
  }

  ghost function HeapAfter(bs: seq<Block>, calls: seq<Call>): seq<Block>
    requires HeapRun(bs, calls)
    decreases |calls|
  {
    if calls == [] then bs else HeapAfter(AfterCall(bs, calls[0]), calls[1..])
  }

  lemma CallKeeps(bs: seq<Block>, c: Call)
    requires Tiled(bs) && Allowed(bs, c)
    ensures Tiled(AfterCall(bs, c))
    ensures forall b :: b in Live(bs) && c != DoFree(b) ==> b in Live(AfterCall(bs, c))
  {
    match c
    case DoMalloc(size) =>
      MallocKeepsTiling(bs, size);
      var len := MallocAddsOne(bs, size);
    case DoFree(b) =>
      FreeKeepsTiling(bs, IndexOf(bs, b));
      FreeRemovesOne(bs, IndexOf(bs, b));
  }

  /** Over every run from the empty heap the blocks stay tiled, and a live block that is not
      freed is found at the end as it was, neither moved nor resized. */
  lemma {:induction false} RunKeepsTiling(bs: seq<Block>, calls: seq<Call>)
    requires Tiled(bs) && HeapRun(bs, calls)
    ensures Tiled(HeapAfter(bs, calls))
    ensures forall b :: b in Live(bs) && DoFree(b) !in calls ==> b in Live(HeapAfter(bs, calls))
    decreases |calls|
  {
    if calls != [] {
      CallKeeps(bs, calls[0]);
      RunKeepsTiling(AfterCall(bs, calls[0]), calls[1..]);
    }
  }
}
