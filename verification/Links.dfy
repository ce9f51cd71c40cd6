/** The doubly linked list of block headers (include/memlib.h:8-14) as a map from addresses
    to headers, and how the pointer updates of `kmalloc` and `kfree` change the block list
    that it represents. */
module Links {
  import opened HeapSpec

  /** `header_t`; a null pointer is address 0. */
  datatype Header = Header(prev: nat, next: nat, used: bool, length: nat)

  function AddrAt(bs: seq<Block>, i: int): nat {
    if 0 <= i < |bs| then bs[i].addr else 0
  }

  function HeaderAt(bs: seq<Block>, i: nat): Header
    requires i < |bs|
  {
    Header(AddrAt(bs, i - 1), AddrAt(bs, i + 1), bs[i].used, bs[i].len)
  }

  ghost predicate LinkedAt(h: map<nat, Header>, bs: seq<Block>, i: nat)
    requires i < |bs|
  {
    bs[i].addr in h && h[bs[i].addr] == HeaderAt(bs, i)
  }

  /** The headers represent the block list: `prev` and `next` are inverse to each other. */
  ghost predicate Linked(h: map<nat, Header>, bs: seq<Block>) {
    forall i: nat :: i < |bs| ==> LinkedAt(h, bs, i)
  }

  /** Addresses increase, so no two blocks share a header. */
  ghost predicate Increasing(bs: seq<Block>) {
    && (forall i, j :: 0 <= i < j < |bs| ==> bs[i].addr < bs[j].addr)
    && (forall i :: 0 <= i < |bs| ==> bs[i].addr > 0)
  }

  lemma TiledIsIncreasing(bs: seq<Block>)
    requires Tiled(bs)
    ensures Increasing(bs)
  {
    forall i: nat, j: nat | i < j < |bs| ensures bs[i].addr < bs[j].addr {
      AddrsIncrease(bs, i, j);
    }
    forall i: nat | i < |bs| ensures bs[i].addr > 0 {
      AddrFromStart(bs, i);
    }
  }

  lemma JoinedIncreases(bs: seq<Block>, n: nat, b: Block, m: nat)
    requires Increasing(bs) && n < m <= |bs| && b.addr == bs[n].addr
    ensures Increasing(Splice(bs, n, [b], m))
  {
    SpliceAt(bs, n, [b], m, Splice(bs, n, [b], m), n + 1);
  }

  /** Another block has another address. */
  lemma AddrsDiffer(bs: seq<Block>, i: nat, k: nat)
    requires Increasing(bs) && i < |bs| && k < |bs| && i != k
    ensures bs[i].addr != bs[k].addr
  {}

  /** Blocks `n` up to `m` become one block: its header and the `prev` of its successor
      are all that has to change. */
  lemma LinkJoined(h: map<nat, Header>, bs: seq<Block>, n: nat, b: Block, m: nat, h1: map<nat, Header>)
    requires Increasing(bs) && Linked(h, bs) && n < m <= |bs| && b.addr == bs[n].addr
    requires LinkedAt(h1, Splice(bs, n, [b], m), n)
    requires m < |bs| ==> bs[m].addr in h1 && h1[bs[m].addr] == HeaderAt(bs, m).(prev := b.addr)
    requires forall a :: a in h && a != b.addr && (m < |bs| ==> a != bs[m].addr) ==> a in h1 && h1[a] == h[a]
    ensures Linked(h1, Splice(bs, n, [b], m)) && Increasing(Splice(bs, n, [b], m))
  {
    var cs := Splice(bs, n, [b], m);
    SpliceAt(bs, n, [b], m, cs, n + 1);
    JoinedIncreases(bs, n, b, m);
    hide Splice, Increasing;
    forall i: nat | i < |cs| ensures LinkedAt(h1, cs, i) {
      if i != n {
        var k := if i < n then i else i - n - 1 + m;
        assert LinkedAt(h, bs, k);
        AddrsDiffer(bs, k, n);
        if m < |bs| && k != m {
          AddrsDiffer(bs, k, m);
        }
      }
    }
  }

  /** A block is split in two: the new header goes between it and its successor. */
  lemma LinkSplit(h: map<nat, Header>, bs: seq<Block>, n: nat, b: Block, c: Block, h1: map<nat, Header>)
    requires Increasing(bs) && Linked(h, bs) && n < |bs| && b.addr == bs[n].addr
    requires b.addr < c.addr && (n + 1 < |bs| ==> c.addr < bs[n + 1].addr)
    requires LinkedAt(h1, Splice(bs, n, [b, c], n + 1), n) && LinkedAt(h1, Splice(bs, n, [b, c], n + 1), n + 1)
    requires n + 1 < |bs| ==> bs[n + 1].addr in h1 && h1[bs[n + 1].addr] == HeaderAt(bs, n + 1).(prev := c.addr)
    requires forall a :: a in h && a != b.addr && a != c.addr && (n + 1 < |bs| ==> a != bs[n + 1].addr) ==>
               a in h1 && h1[a] == h[a]
    ensures Linked(h1, Splice(bs, n, [b, c], n + 1))
  {
    var cs := Splice(bs, n, [b, c], n + 1);
    SpliceAt(bs, n, [b, c], n + 1, cs, n + 2);
    forall i: nat | i < |cs| ensures LinkedAt(h1, cs, i) {
      if i < n {
        assert LinkedAt(h, bs, i);
      } else if i > n + 1 {
        assert LinkedAt(h, bs, i - 1);
      }
    }
  }

  /** A block is appended. */
  lemma LinkAppended(h: map<nat, Header>, bs: seq<Block>, b: Block, h1: map<nat, Header>)
    requires Increasing(bs) && Linked(h, bs)
    requires b.addr > 0 && forall i :: 0 <= i < |bs| ==> bs[i].addr < b.addr
    requires b.addr in h1 && h1[b.addr] == Header(AddrAt(bs, |bs| - 1), 0, b.used, b.len)
    requires bs != [] ==>
               var last := bs[|bs| - 1].addr;
               last in h1 && h1[last] == HeaderAt(bs, |bs| - 1).(next := b.addr)
    requires forall a :: a in h && a != b.addr && a != AddrAt(bs, |bs| - 1) ==> a in h1 && h1[a] == h[a]
    ensures Linked(h1, bs + [b])
  {
    var cs := bs + [b];
    forall i: nat | i < |cs| ensures LinkedAt(h1, cs, i) {
      if i < |bs| {
        assert LinkedAt(h, bs, i);
      }
    }
  }

  /** The last block is cut off. */
  lemma LinkCut(h: map<nat, Header>, bs: seq<Block>, h1: map<nat, Header>)
    requires Increasing(bs) && Linked(h, bs) && bs != []
    requires |bs| >= 2 ==>
               var last := bs[|bs| - 2].addr;
               last in h1 && h1[last] == HeaderAt(bs, |bs| - 2).(next := 0)
    requires forall a :: a in h && a != AddrAt(bs, |bs| - 2) ==> a in h1 && h1[a] == h[a]
    ensures Linked(h1, bs[..|bs| - 1])
  {
    var cs := bs[..|bs| - 1];
    forall i: nat | i < |cs| ensures LinkedAt(h1, cs, i) {
      assert LinkedAt(h, bs, i);
    }
  }
}
