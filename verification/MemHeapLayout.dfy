/**
 * The memory heap of rt-thread/src/memheap.c: block headers in a doubly linked ring, and the free ones in a second ring
 * through a header of their own. Offsets count 32-bit words.
 */
module MemHeapLayout {
  import opened Lists
  import opened BlockLayout

  /** RT_MEMHEAP_SIZE and RT_MEMHEAP_MINIALLOC. */
  const HEADER := 6
  const MINI := 4

  /** struct rt_memheap_item without magic number and pool pointer. */
  datatype Item = Item(used: bool, next: int, prev: int, nextFree: int, prevFree: int)

  // ----- The ring of blocks -----

  /** The blocks, then the tailer, then the first block again; in front of the first block the tailer. */
  ghost function RingAt(bs: seq<Block>, tail: nat, i: int): int {
    if 0 <= i < |bs| then bs[i].start
    else if i == |bs| + 1 && bs != [] then bs[0].start
    else tail
  }

  /** The header of block k, or of the tailer, says what the block is and who its neighbours are. */
  ghost predicate Node(items: map<int, Item>, bs: seq<Block>, tail: nat, k: int) {
    var p := RingAt(bs, tail, k);
    && p in items
    && items[p].next == RingAt(bs, tail, k + 1)
    && items[p].prev == RingAt(bs, tail, k - 1)
    && items[p].used == !(0 <= k < |bs| && !bs[k].used)
  }

  ghost predicate Ring(items: map<int, Item>, bs: seq<Block>, tail: nat) {
    forall k {:trigger Node(items, bs, tail, k)} :: 0 <= k <= |bs| ==> Node(items, bs, tail, k)
  }

  ghost predicate SameNode(items: map<int, Item>, items1: map<int, Item>, p: int) {
    p in items ==>
      p in items1 && items1[p].used == items[p].used && items1[p].next == items[p].next &&
        items1[p].prev == items[p].prev
  }

  ghost predicate SameRing(items: map<int, Item>, items1: map<int, Item>) {
    forall p {:trigger SameNode(items, items1, p)} :: SameNode(items, items1, p)
  }

  lemma RingStays(items: map<int, Item>, items1: map<int, Item>, bs: seq<Block>, tail: nat)
    requires Ring(items, bs, tail) && SameRing(items, items1)
    ensures Ring(items1, bs, tail)
  {
    forall k | 0 <= k <= |bs| ensures Node(items1, bs, tail, k) {
      assert Node(items, bs, tail, k) && SameNode(items, items1, RingAt(bs, tail, k));
    }
  }

  /** No two nodes of the ring are at one place. */
  lemma RingDistinct(bs: seq<Block>, tail: nat, i: int, j: int)
    requires Tiles(bs, 0, tail) && 0 <= i < j <= |bs|
    ensures RingAt(bs, tail, i) < RingAt(bs, tail, j)
  {
    AllApart(bs, 0, tail);
  }

  /**
   * Blocks i to j give way to others that begin at the same place. Besides the nodes of the new blocks, only the node
   * behind them has changed: it points back to the last of them.
   */
  lemma RingSplice(items: map<int, Item>, items1: map<int, Item>, bs: seq<Block>, i: nat, j: nat, mid: seq<Block>,
                   tail: nat)
    requires Tiles(bs, 0, tail) && Ring(items, bs, tail) && i < j <= |bs|
    requires mid != [] && Tiles(mid, bs[i].start, bs[j - 1].end)
    requires forall p {:trigger SameNode(items, items1, p)} ::
               p != RingAt(bs, tail, j) && (p < bs[i].start || p >= bs[j - 1].end) ==> SameNode(items, items1, p)
    requires var r := Splice(bs, i, j, mid);
             forall k {:trigger Node(items1, r, tail, k)} :: i <= k < i + |mid| ==> Node(items1, r, tail, k)
    requires var q := RingAt(bs, tail, j);
             q in items && q in items1 && items1[q].used == items[q].used && items1[q].next == items[q].next
             && items1[q].prev == mid[|mid| - 1].start
    ensures Ring(items1, Splice(bs, i, j, mid), tail)
  {
    var r := Splice(bs, i, j, mid);
    var d := |mid| - (j - i);
    AllApart(bs, 0, tail);
    assert Piece(bs, j - 1, tail);
    forall k | 0 <= k <= |r| ensures Node(items1, r, tail, k) {
      if k < i {
        RingDistinct(bs, tail, k, j);
        assert Node(items, bs, tail, k) && SameNode(items, items1, RingAt(bs, tail, k));
        NodeInFront(items, items1, bs, i, j, mid, tail, k);
      } else if k >= i + |mid| {
        assert Node(items, bs, tail, k - d);
        if k - d > j {
          RingDistinct(bs, tail, j, k - d);
          assert SameNode(items, items1, RingAt(bs, tail, k - d));
        }
        NodeBehind(items, items1, bs, i, j, mid, tail, k);
      }
    }
  }

  lemma NodeInFront(items: map<int, Item>, items1: map<int, Item>, bs: seq<Block>, i: nat, j: nat, mid: seq<Block>,
                    tail: nat, k: nat)
    requires i < j <= |bs| && mid != [] && mid[0].start == bs[i].start && k < i
    requires Node(items, bs, tail, k) && SameNode(items, items1, RingAt(bs, tail, k))
    ensures Node(items1, Splice(bs, i, j, mid), tail, k)
  {
    SpliceRingAt(bs, i, j, mid, tail, k);
    SpliceRingAt(bs, i, j, mid, tail, k + 1);
    SpliceRingAt(bs, i, j, mid, tail, k - 1);
  }

  /** The node right behind the new blocks points back to the last of them, the others are as before. */
  lemma NodeBehind(items: map<int, Item>, items1: map<int, Item>, bs: seq<Block>, i: nat, j: nat, mid: seq<Block>,
                   tail: nat, k: nat)
    requires i < j <= |bs| && mid != [] && mid[0].start == bs[i].start && i + |mid| <= k <= |Splice(bs, i, j, mid)|
    requires var o := k - |mid| + (j - i); var q := RingAt(bs, tail, o);
             && Node(items, bs, tail, o) && q in items1
             && items1[q].used == items[q].used && items1[q].next == items[q].next
             && items1[q].prev == if o == j then mid[|mid| - 1].start else items[q].prev
    ensures Node(items1, Splice(bs, i, j, mid), tail, k)
  {
    SpliceRingAt(bs, i, j, mid, tail, k);
    SpliceRingAt(bs, i, j, mid, tail, k + 1);
    SpliceRingAt(bs, i, j, mid, tail, k - 1);
  }

  /** Where a node of the spliced ring was before. */
  lemma SpliceRingAt(bs: seq<Block>, i: nat, j: nat, mid: seq<Block>, tail: nat, k: int)
    requires i < j <= |bs| && mid != [] && mid[0].start == bs[i].start
    requires -1 <= k <= |Splice(bs, i, j, mid)| + 1
    ensures var r := Splice(bs, i, j, mid);
            var d := |mid| - (j - i);
            && (k < i ==> RingAt(r, tail, k) == RingAt(bs, tail, k))
            && (i <= k < i + |mid| ==> RingAt(r, tail, k) == mid[k - i].start)
            && (k >= i + |mid| ==> RingAt(r, tail, k) == RingAt(bs, tail, k - d))
            && (0 <= k < i ==> r[k] == bs[k]) && (i + |mid| <= k < |r| ==> r[k] == bs[k - d])
  {}

  /** Block k is cut at q: the new node comes between p and the node behind it. */
  lemma CutRing(items: map<int, Item>, items1: map<int, Item>, bs: seq<Block>, tail: nat, k: nat, q: nat, item: Item)
    requires Tiles(bs, 0, tail) && Ring(items, bs, tail) && k < |bs|
    requires bs[k].start + SZ <= q && q + SZ <= bs[k].end && q % 2 == 0
    requires var p, n := bs[k].start, RingAt(bs, tail, k + 1);
             && p in items && n in items && !item.used && item.next == n && item.prev == p
             && items1 == items[q := item][n := items[n].(prev := q)][p := items[p].(next := q)]
    ensures Ring(items1, Splice(bs, k, k + 1, [Block(bs[k].start, q, bs[k].used), Block(q, bs[k].end, false)]), tail)
    ensures Tiles(Splice(bs, k, k + 1, [Block(bs[k].start, q, bs[k].used), Block(q, bs[k].end, false)]), 0, tail)
  {
    var mid := [Block(bs[k].start, q, bs[k].used), Block(q, bs[k].end, false)];
    var r := Splice(bs, k, k + 1, mid);
    AllApart(bs, 0, tail);
    TwoTile(mid[0], mid[1]);
    assert Piece(bs, k, tail);
    RingDistinct(bs, tail, k, k + 1);
    assert Node(items, bs, tail, k) && Node(items, bs, tail, k + 1);
    SpliceRingAt(bs, k, k + 1, mid, tail, k - 1);
    SpliceRingAt(bs, k, k + 1, mid, tail, k);
    SpliceRingAt(bs, k, k + 1, mid, tail, k + 1);
    SpliceRingAt(bs, k, k + 1, mid, tail, k + 2);
    assert Node(items1, r, tail, k) && Node(items1, r, tail, k + 1);
    RingSplice(items, items1, bs, k, k + 1, mid, tail);
    SpliceTiles(bs, k, k + 1, mid, tail);
  }

  lemma TwoTile(a: Block, b: Block)
    requires a.end == b.start && a.start + SZ <= a.end && b.start + SZ <= b.end && a.start % 2 == 0 && b.start % 2 == 0
    ensures Tiles([a, b], a.start, b.end)
  {}

  lemma OneTiles(a: Block)
    requires a.start + SZ <= a.end && a.start % 2 == 0
    ensures Tiles([a], a.start, a.end)
  {}

  /** Block k takes in its successor: the node of the successor is passed over. */
  lemma JoinRing(items: map<int, Item>, items1: map<int, Item>, bs: seq<Block>, tail: nat, k: nat)
    requires Tiles(bs, 0, tail) && Ring(items, bs, tail) && k + 1 < |bs|
    requires var p, m := bs[k].start, RingAt(bs, tail, k + 2);
             && p in items && m in items
             && items1 == items[m := items[m].(prev := p)][p := items[p].(next := m)]
    ensures Ring(items1, Splice(bs, k, k + 2, [Block(bs[k].start, bs[k + 1].end, bs[k].used)]), tail)
    ensures Tiles(Splice(bs, k, k + 2, [Block(bs[k].start, bs[k + 1].end, bs[k].used)]), 0, tail)
  {
    var mid := [Block(bs[k].start, bs[k + 1].end, bs[k].used)];
    var r := Splice(bs, k, k + 2, mid);
    AllApart(bs, 0, tail);
    OneTiles(mid[0]);
    RingDistinct(bs, tail, k, k + 2);
    assert Node(items, bs, tail, k) && Node(items, bs, tail, k + 2);
    JoinedNode(items, items1, bs, tail, k);
    assert Piece(bs, k + 1, tail);
    RingSplice(items, items1, bs, k, k + 2, mid, tail);
    SpliceTiles(bs, k, k + 2, mid, tail);
  }

  lemma JoinedNode(items: map<int, Item>, items1: map<int, Item>, bs: seq<Block>, tail: nat, k: nat)
    requires k + 1 < |bs| && Node(items, bs, tail, k)
    requires var p := bs[k].start;
             p in items1 && items1[p].used == items[p].used && items1[p].prev == items[p].prev
             && items1[p].next == RingAt(bs, tail, k + 2)
    ensures Node(items1, Splice(bs, k, k + 2, [Block(bs[k].start, bs[k + 1].end, bs[k].used)]), tail, k)
  {
    var mid := [Block(bs[k].start, bs[k + 1].end, bs[k].used)];
    SpliceRingAt(bs, k, k + 2, mid, tail, k);
    SpliceRingAt(bs, k, k + 2, mid, tail, k + 1);
    SpliceRingAt(bs, k, k + 2, mid, tail, k - 1);
  }

  /** A block changes hands. */
  lemma MarkRing(items: map<int, Item>, bs: seq<Block>, tail: nat, k: nat, used: bool)
    requires Tiles(bs, 0, tail) && Ring(items, bs, tail) && k < |bs|
    requires bs[k].start in items
    ensures Ring(items[bs[k].start := items[bs[k].start].(used := used)], bs[k := bs[k].(used := used)], tail)
    ensures Tiles(bs[k := bs[k].(used := used)], 0, tail)
  {
    var r := bs[k := bs[k].(used := used)];
    var items1 := items[bs[k].start := items[bs[k].start].(used := used)];
    forall o | 0 <= o <= |r| ensures Node(items1, r, tail, o) {
      assert Node(items, bs, tail, o);
      if o < k {
        RingDistinct(bs, tail, o, k);
      } else if k < o {
        RingDistinct(bs, tail, k, o);
      }
    }
    forall o | 0 <= o < |r| ensures Piece(r, o, tail) {
      assert Piece(bs, o, tail);
    }
  }

  // ----- The ring of free blocks -----

  /** The free list from its header on: position -1 and the position behind the last are the header. */
  ghost function FreeAt(fl: seq<int>, head: int, i: int): int {
    if 0 <= i < |fl| then fl[i]
    else if i == -2 && fl != [] then fl[|fl| - 1]
    else head
  }

  ghost predicate FreeNode(items: map<int, Item>, fl: seq<int>, head: int, i: int) {
    var p := FreeAt(fl, head, i);
    p in items && items[p].nextFree == FreeAt(fl, head, i + 1) && items[p].prevFree == FreeAt(fl, head, i - 1)
  }

  ghost predicate FreeRing(items: map<int, Item>, fl: seq<int>, head: int) {
    && Distinct(fl) && head !in fl
    && forall i {:trigger FreeNode(items, fl, head, i)} :: -1 <= i < |fl| ==> FreeNode(items, fl, head, i)
  }

  ghost predicate SameFreeNode(items: map<int, Item>, items1: map<int, Item>, p: int) {
    p in items ==> p in items1 && items1[p].nextFree == items[p].nextFree && items1[p].prevFree == items[p].prevFree
  }

  lemma FreeRingStays(items: map<int, Item>, items1: map<int, Item>, fl: seq<int>, head: int)
    requires FreeRing(items, fl, head)
    requires forall p {:trigger SameFreeNode(items, items1, p)} :: p == head || p in fl ==>
      SameFreeNode(items, items1, p)
    ensures FreeRing(items1, fl, head)
  {
    forall i | -1 <= i < |fl| ensures FreeNode(items1, fl, head, i) {
      assert FreeNode(items, fl, head, i) && SameFreeNode(items, items1, FreeAt(fl, head, i));
    }
  }

  /** Unlinking node i. */
  lemma UnlinkedRing(items: map<int, Item>, items1: map<int, Item>, items2: map<int, Item>, fl: seq<int>, head: int,
                     i: nat)
    requires FreeRing(items, fl, head) && i < |fl|
    requires FreeAt(fl, head, i + 1) in items && FreeAt(fl, head, i - 1) in items
    requires var n := FreeAt(fl, head, i + 1); items1 == items[n := items[n].(prevFree := FreeAt(fl, head, i - 1))]
    requires var p := FreeAt(fl, head, i - 1);
      p in items1 && items2 == items1[p := items1[p].(nextFree := FreeAt(fl, head, i + 1))]
    ensures FreeRing(items2, fl[..i] + fl[i + 1..], head)
  {
    var r := fl[..i] + fl[i + 1..];
    assert forall k :: 0 <= k < |r| ==> r[k] == fl[if k < i then k else k + 1];
    forall k | -1 <= k < |r| ensures FreeNode(items2, r, head, k) {
      assert FreeNode(items, fl, head, if k < i then k else k + 1);
    }
  }

  /** Linking a node in behind the header. */
  lemma PushedRing(items: map<int, Item>, items1: map<int, Item>, items2: map<int, Item>, items3: map<int, Item>,
                   fl: seq<int>, head: int, q: int)
    requires FreeRing(items, fl, head) && q in items && q != head && q !in fl && head in items
    requires items1 == items[q := items[q].(nextFree := items[head].nextFree, prevFree := head)]
    requires var n := items[head].nextFree; n in items1 && items2 == items1[n := items1[n].(prevFree := q)]
    requires head in items2 && items3 == items2[head := items2[head].(nextFree := q)]
    ensures FreeRing(items3, [q] + fl, head)
  {
    var r := [q] + fl;
    assert FreeNode(items, fl, head, -1);
    forall k | -1 <= k < |r| ensures FreeNode(items3, r, head, k) {
      assert k >= 0 ==> FreeNode(items, fl, head, k - 1);
    }
  }

  // ----- Which blocks are free -----

  ghost predicate FreeBlock(bs: seq<Block>, k: int, p: int) {
    0 <= k < |bs| && !bs[k].used && bs[k].start == p
  }

  ghost predicate IsFree(bs: seq<Block>, p: int) {
    exists k :: FreeBlock(bs, k, p)
  }

  /** The free list holds exactly the free blocks. */
  ghost predicate Exact(bs: seq<Block>, fl: seq<int>) {
    forall p :: p in fl <==> IsFree(bs, p)
  }

  ghost predicate Roomy(bs: seq<Block>) {
    forall b :: b in bs ==> b.Room(HEADER) >= 0
  }

  function FreeRoom(b: Block): int {
    if b.used then 0 else b.Room(HEADER)
  }

  /** What a well-formed heap looks like: blocks, free list and available size. */
  ghost predicate Shaped(bs: seq<Block>, fl: seq<int>, available: int, tail: nat) {
    && Tiles(bs, 0, tail) && bs != [] && tail % 2 == 0
    && Coalesced(bs) && Roomy(bs) && Exact(bs, fl) && available == Total(bs, FreeRoom)
  }

  /** The free blocks after a splice. */
  lemma SpliceFree(bs: seq<Block>, i: nat, j: nat, mid: seq<Block>, tail: nat, p: int)
    requires Tiles(bs, 0, tail) && i < j <= |bs|
    ensures IsFree(Splice(bs, i, j, mid), p) <==>
      (IsFree(bs, p) && !(bs[i].start <= p < bs[j - 1].end)) || IsFree(mid, p)
  {
    var r := Splice(bs, i, j, mid);
    var d := |mid| - (j - i);
    AllApart(bs, 0, tail);
    if IsFree(r, p) {
      var k :| FreeBlock(r, k, p);
      assert k < i ==> FreeBlock(bs, k, p);
      assert i <= k < i + |mid| ==> FreeBlock(mid, k - i, p);
      assert k >= i + |mid| ==> FreeBlock(bs, k - d, p);
    }
    if IsFree(bs, p) && !(bs[i].start <= p < bs[j - 1].end) {
      var k :| FreeBlock(bs, k, p);
      OutsideSplice(bs, tail, i, j, k);
      assert FreeBlock(r, if k < i then k else k + d, p);
    }
    if IsFree(mid, p) {
      var k :| FreeBlock(mid, k, p);
      assert FreeBlock(r, i + k, p);
    }
  }

  lemma OutsideSplice(bs: seq<Block>, tail: nat, i: nat, j: nat, k: nat)
    requires Tiles(bs, 0, tail) && i < j <= |bs| && k < |bs| && !(bs[i].start <= bs[k].start < bs[j - 1].end)
    ensures k < i || k >= j
  {
    AllApart(bs, 0, tail);
  }

  /** The free list loses the blocks from i to j and gets the free ones among those that replace them. */
  ghost predicate Follows(bs: seq<Block>, fl: seq<int>, i: nat, j: nat, mid: seq<Block>, fl1: seq<int>) {
    i < j <= |bs| && forall p :: p in fl1 <==> (p in fl && !(bs[i].start <= p < bs[j - 1].end)) || IsFree(mid, p)
  }

  /** Replacing blocks keeps the shape when the new ones fit in between and the free list follows. */
  lemma Reshaped(bs: seq<Block>, fl: seq<int>, available: int, tail: nat, i: nat, j: nat, mid: seq<Block>,
                 fl1: seq<int>)
    requires Shaped(bs, fl, available, tail) && i < j <= |bs| && mid != []
    requires Tiles(mid, bs[i].start, bs[j - 1].end) && Coalesced(mid) && Roomy(mid)
    requires i > 0 ==> bs[i - 1].used || mid[0].used
    requires j < |bs| ==> mid[|mid| - 1].used || bs[j].used
    requires Follows(bs, fl, i, j, mid, fl1)
    ensures Shaped(Splice(bs, i, j, mid), fl1, available - Total(bs[i..j], FreeRoom) + Total(mid, FreeRoom), tail)
    ensures Live(Splice(bs, i, j, mid)) == Live(bs) - Live(bs[i..j]) + Live(mid)
  {
    SpliceTiles(bs, i, j, mid, tail);
    SpliceCoalesced(bs, i, j, mid);
    SpliceMembers(bs, i, j, mid);
    TotalReplace(bs, i, j, mid, FreeRoom);
    ReplaceLiveRange(bs, i, j, mid, tail);
    forall p ensures p in fl1 <==> IsFree(Splice(bs, i, j, mid), p) {
      SpliceFree(bs, i, j, mid, tail, p);
    }
  }
}
