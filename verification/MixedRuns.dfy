/** The heap beside other users of the frames: runs of `kmalloc`, `kfree`, `alloc_page`,
    `free_page` and `map` in any order. */
module MixedRuns {
  import opened Paging
  import opened HeapSpec
  import opened HeapPages

  /** A call on the heap, or a call of others: they take a frame, give back one of theirs, or
      map a page outside of the heap, which may take a frame for a table. */
  datatype Action = OnHeap(call: Call) | TakeFrame | GiveFrame(f: nat) | MapPage(idx: nat)

  datatype World = World(blocks: seq<Block>, space: Space)

  ghost predicate Good(w: World) {
    Consistent(w.blocks, w.space)
  }

  ghost predicate Can(w: World, a: Action) {
    match a
    case OnHeap(c) => Possible(w.blocks, w.space, c)
    case TakeFrame => w.space.frames.free != []
    case GiveFrame(f) => f in Foreign(w.space)
    case MapPage(idx) => idx in w.space.frames.tables || w.space.frames.free != []
  }

  ghost function Do(w: World, a: Action): World
    requires Good(w) && Can(w, a)
  {
    match a
    case OnHeap(c) => World(AfterCall(w.blocks, c), NextSpace(w.blocks, w.space, c))
    case TakeFrame => w.(space := w.space.(frames := AllocStep(w.space.frames)))
    case GiveFrame(f) => w.(space := w.space.(frames := FreeStep(w.space.frames, f)))
    case MapPage(idx) => w.(space := w.space.(frames := TableStep(w.space.frames, idx)))
  }

  /** The frames of others after an action. */
  ghost function ForeignAfter(w: World, a: Action): set<nat>
    requires Can(w, a)
  {
    match a
    case TakeFrame => Foreign(w.space) + {Last(w.space.frames)}
    case GiveFrame(f) => Foreign(w.space) - {f}
    case _ => Foreign(w.space)
  }

  /** The frame that backs the byte at `a`. */
  ghost function FrameOf(s: Space, a: nat): nat
    requires a / PAGE_SIZE in s.pages
  {
    s.pages[a / PAGE_SIZE]
  }

  ghost predicate InBlock(b: Block, a: nat) {
    b.addr <= a < b.addr + b.len
  }

  lemma OthersKeep(w: World, a: Action)
    requires Good(w) && Can(w, a) && !a.OnHeap?
    ensures Good(Do(w, a)) && Total(Do(w, a).space.frames) == Total(w.space.frames)
    ensures Foreign(Do(w, a).space) == ForeignAfter(w, a)
  {
    var s := w.space;
    match a
    case TakeFrame =>
      LastIsNew(s);
      AllocConserves(s.frames);
    case GiveFrame(f) => FreeConserves(s.frames, f);
    case MapPage(idx) => TableConserves(s.frames, idx);
  }

  /** Every action, of whomever, keeps blocks and pages in agreement, loses no frame and makes
      none up, and changes the frames of others by what they do themselves only. */
  lemma ActionKeeps(w: World, a: Action)
    requires Good(w) && Can(w, a)
    ensures Good(Do(w, a)) && Total(Do(w, a).space.frames) == Total(w.space.frames)
    ensures Foreign(Do(w, a).space) == ForeignAfter(w, a)
  {
    if a.OnHeap? {
      CallKeepsConsistent(w.blocks, w.space, a.call);
    } else {
      OthersKeep(w, a);
    }
  }

  lemma BlockBelowEnd(bs: seq<Block>, b: Block, a: nat)
    requires Tiled(bs) && b in bs && InBlock(b, a)
    ensures HEAP_START <= a < EndOf(bs)
  {
    var i :| 0 <= i < |bs| && bs[i] == b;
    AddrMonotone(bs, i);
    AddrFromStart(bs, i);
  }

  lemma ByteHasPage(w: World, b: Block, a: nat)
    requires Good(w) && b in w.blocks && InBlock(b, a)
    ensures a / PAGE_SIZE in w.space.pages
  {
    var i :| 0 <= i < |w.blocks| && w.blocks[i] == b;
    ByteIsBacked(w.blocks, w.space, i, a);
  }

  lemma MallocKeepsFrame(w: World, size: nat, b: Block, a: nat)
    requires Good(w) && Possible(w.blocks, w.space, DoMalloc(size)) && b in w.blocks && InBlock(b, a)
    ensures a / PAGE_SIZE in w.space.pages
    ensures var t := NextSpace(w.blocks, w.space, DoMalloc(size));
            a / PAGE_SIZE in t.pages && FrameOf(t, a) == FrameOf(w.space, a)
  {
    ByteHasPage(w, b, a);
    GrowKeeps(w.space, EndOf(Malloc(w.blocks, size)));
  }

  lemma FreeKeepsFrame(w: World, d: Block, b: Block, a: nat)
    requires Good(w) && Possible(w.blocks, w.space, DoFree(d)) && b in Live(w.blocks) && b != d && InBlock(b, a)
    ensures a / PAGE_SIZE in w.space.pages
    ensures var t := NextSpace(w.blocks, w.space, DoFree(d));
            a / PAGE_SIZE in t.pages && FrameOf(t, a) == FrameOf(w.space, a)
  {
    var i := IndexOf(w.blocks, d);
    var cs := Release(w.blocks, i);
    FreeRemovesOne(w.blocks, i);
    FreeKeepsTiling(w.blocks, i);
    BlockBelowEnd(cs, b, a);
    ByteHasPage(w, b, a);
    FreeKeepsConsistent(w.blocks, w.space, i);
    RoundUpIs(EndOf(w.blocks), w.space.top);
    ShrinkKeeps(w.space, EndOf(cs));
  }

  /** A live block that the action does not free stays where it is, each of its bytes in the
      same frame. */
  lemma ActionKeepsByte(w: World, x: Action, b: Block, a: nat)
    requires Good(w) && Can(w, x) && b in Live(w.blocks) && x != OnHeap(DoFree(b)) && InBlock(b, a)
    ensures a / PAGE_SIZE in w.space.pages && b in Live(Do(w, x).blocks)
    ensures a / PAGE_SIZE in Do(w, x).space.pages && FrameOf(Do(w, x).space, a) == FrameOf(w.space, a)
  {
    ByteHasPage(w, b, a);
    if x.OnHeap? {
      CallKeeps(w.blocks, x.call);
      match x.call
      case DoMalloc(size) => MallocKeepsFrame(w, size, b, a);
      case DoFree(d) => FreeKeepsFrame(w, d, b, a);
    }
  }

  ghost predicate IsRun(w: World, acts: seq<Action>)
    requires Good(w)
    decreases |acts|
  {
    acts == [] || (Can(w, acts[0]) && (ActionKeeps(w, acts[0]); IsRun(Do(w, acts[0]), acts[1..])))
  }

  ghost function End(w: World, acts: seq<Action>): World
    requires Good(w) && IsRun(w, acts)
    decreases |acts|
  {
    if acts == [] then w
    else
      ActionKeeps(w, acts[0]);
      End(Do(w, acts[0]), acts[1..])
  }

  /** Over every mixed run: the heap pages are precisely those below the heap end, no frame
      has two owners, and none is lost or made up. */
  lemma {:induction false} MixedRunConserves(w: World, acts: seq<Action>)
    requires Good(w) && IsRun(w, acts)
    ensures var t := End(w, acts);
            && Good(t) && Disjoint(t.space.frames) && Total(t.space.frames) == Total(w.space.frames)
            && (forall p :: p in t.space.pages <==> HEAP_PAGE <= p && p * PAGE_SIZE < EndOf(t.blocks))
    decreases |acts|
  {
    if acts == [] {
      RoundUpIs(EndOf(w.blocks), w.space.top);
    } else {
      ActionKeeps(w, acts[0]);
      MixedRunConserves(Do(w, acts[0]), acts[1..]);
    }
  }

  /** Over every mixed run: a live block that is not freed is unmoved at its end, and each of
      its bytes lies in the frame it lay in before, which no other page and no one else has. */
  lemma {:induction false} BytesKeepTheirFrames(w: World, acts: seq<Action>, b: Block, a: nat)
    requires Good(w) && IsRun(w, acts) && b in Live(w.blocks) && OnHeap(DoFree(b)) !in acts && InBlock(b, a)
    ensures var t := End(w, acts);
            && a / PAGE_SIZE in w.space.pages && a / PAGE_SIZE in t.space.pages
            && b in Live(t.blocks) && FrameOf(t.space, a) == FrameOf(w.space, a)
            && FrameOf(t.space, a) !in Foreign(t.space) && FrameOf(t.space, a) !in t.space.frames.free
            && (forall q :: q in t.space.pages && q != a / PAGE_SIZE ==> t.space.pages[q] != FrameOf(t.space, a))
    decreases |acts|
  {
    ByteHasPage(w, b, a);
    if acts != [] {
      ActionKeeps(w, acts[0]);
      ActionKeepsByte(w, acts[0], b, a);
      BytesKeepTheirFrames(Do(w, acts[0]), acts[1..], b, a);
    }
  }

  // ------------------------------------------------------- Without kfree

  ghost predicate AllUsed(bs: seq<Block>) {
    forall b :: b in bs ==> b.used
  }

  lemma AllUsedFitsNothing(bs: seq<Block>)
    requires AllUsed(bs)
    ensures forall size :: FirstFit(bs, size) == |bs|
  {}

  lemma DoAppends(w: World, x: Action)
    requires Good(w) && Can(w, x) && AllUsed(w.blocks) && !(x.OnHeap? && x.call.DoFree?)
    ensures AllUsed(Do(w, x).blocks) && w.blocks <= Do(w, x).blocks
  {
    AllUsedFitsNothing(w.blocks);
  }

  /** Without a kfree only the path of lines 33-56 of src/memlib.c is taken, which needs no
      repair: every block is in use, and kmalloc appends. */
  lemma {:induction false} OnlyAppends(w: World, acts: seq<Action>)
    requires Good(w) && IsRun(w, acts) && AllUsed(w.blocks)
    requires forall b :: OnHeap(DoFree(b)) !in acts
    ensures AllUsed(End(w, acts).blocks) && w.blocks <= End(w, acts).blocks
    ensures forall size :: FirstFit(End(w, acts).blocks, size) == |End(w, acts).blocks|
    decreases |acts|
  {
    if acts == [] {
      AllUsedFitsNothing(w.blocks);
    } else {
      var x := acts[0];
      ActionKeeps(w, x);
      assert x in acts;
      DoAppends(w, x);
      hide Do, AllUsed, Can;
      assert forall b :: OnHeap(DoFree(b)) !in acts[1..];
      OnlyAppends(Do(w, x), acts[1..]);
    }
  }
}
