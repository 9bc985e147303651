/**
 * What the operations of rt-thread/src/memheap.c do to the blocks, the free list and the counters, as values: handing
 * out, merging, cutting anew.
 */
module MemHeapSteps {
  import opened Lists
  import opened Contents
  import opened BlockLayout
  import opened MemHeapLayout

  /** The words of a request: aligned to 8 bytes, and no less than the minimum. */
  function Need(size: Bytes): (n: nat)
    ensures n >= MINI && n % 2 == 0
    ensures size <= SIZE_LIMIT - 8 ==> size <= 4 * n && (n == MINI || 4 * n < size + 8)
  {
    AlignedCovers(size);
    if Aligned(size) < MINI then MINI else Aligned(size)
  }

  /** available_size of a new heap, in bytes and 32 bits. */
  function InitialAvailable(bytes: Bytes): Bytes {
    (bytes / 8 * 8 - 2 * 4 * HEADER) % SIZE_LIMIT
  }

  /** A region has as many words available as are left beside two headers if and only if it has room for the headers. */
  lemma InitialIs(bytes: Bytes)
    ensures InitialAvailable(bytes) == 4 * (bytes / 8 * 2 - 2 * HEADER) <==> bytes >= 2 * 4 * HEADER
    ensures bytes < 2 * 4 * HEADER ==> InitialAvailable(bytes) > bytes
  {
    var x := bytes / 8 * 8 - 2 * 4 * HEADER;
    if x < 0 {
      assert x % SIZE_LIMIT == x + SIZE_LIMIT;
    }
  }

  /** The bytes of n words and of the minimum have no sum in 32 bits. */
  predicate SumWraps(n: nat) {
    4 * (n + MINI) >= SIZE_LIMIT
  }

  /** The test of rt_memheap_realloc for growing in place, on 32-bit sums of bytes. */
  predicate GrowTest(nextsize: int, oldsize: int, n: nat) {
    4 * (nextsize + oldsize) > 4 * (n + MINI) % SIZE_LIMIT
  }

  /** For sizes that a heap can have, the test says whether the room is enough if and only if the sum does not wrap. */
  lemma GrowTestIsRight(nextsize: nat, oldsize: nat, n: nat)
    requires MINI <= nextsize + oldsize && 4 * (nextsize + oldsize) < SIZE_LIMIT && 4 * n <= SIZE_LIMIT - 8
    ensures (GrowTest(nextsize, oldsize, n) <==> nextsize + oldsize > n + MINI) <==> !SumWraps(n)
  {
    var x := 4 * (n + MINI);
    if SumWraps(n) {
      assert x % SIZE_LIMIT == x - SIZE_LIMIT;
    }
  }

  /** It happens: the minimum in front of the minimum passes for room for almost four gigabytes. */
  lemma GrowTestFails(newsize: Bytes)
    requires newsize == SIZE_LIMIT - 16
    ensures GrowTest(MINI, MINI, Need(newsize)) && Need(newsize) > 2 * MINI && SumWraps(Need(newsize))
  {}

  /** Block k is free and large enough. */
  ghost predicate Fits(bs: seq<Block>, k: int, n: nat) {
    0 <= k < |bs| && !bs[k].used && bs[k].Room(HEADER) >= n
  }

  /** The free block at p is large enough. */
  ghost predicate FitsAt(bs: seq<Block>, p: int, n: nat) {
    exists k :: FreeBlock(bs, k, p) && bs[k].Room(HEADER) >= n
  }

  /** Block k comes first on the free list among those that are large enough. */
  ghost predicate FirstFit(bs: seq<Block>, fl: seq<int>, k: nat, n: nat) {
    && Fits(bs, k, n)
    && exists i :: 0 <= i < |fl| && fl[i] == bs[k].start && forall j :: 0 <= j < i ==> !FitsAt(bs, fl[j], n)
  }

  /** A free block handed out: its front when the rest makes a block of its own, else all of it. */
  function Carve(b: Block, n: nat): seq<Block> {
    if b.Room(HEADER) >= n + HEADER + MINI
    then [Block(b.start, b.start + HEADER + n, true), Block(b.start + HEADER + n, b.end, false)]
    else [Block(b.start, b.end, true)]
  }

  /** A client's pointer, and the block behind it. */
  ghost predicate LiveAt(bs: seq<Block>, k: int, ptr: int) {
    0 <= k < |bs| && bs[k].used && ptr == bs[k].start + HEADER
  }

  ghost predicate IsLive(bs: seq<Block>, ptr: int) {
    exists k :: LiveAt(bs, k, ptr)
  }

  // ----- What the links tell -----

  /** The size that a header tells is the size of its block. */
  lemma RoomIs(items: map<int, Item>, bs: seq<Block>, tail: nat, k: nat)
    requires Tiles(bs, 0, tail) && Ring(items, bs, tail) && k < |bs|
    ensures bs[k].start in items && items[bs[k].start].next == bs[k].end && bs[k].end == RingAt(bs, tail, k + 1)
    ensures items[bs[k].start].next - bs[k].start - HEADER == bs[k].Room(HEADER)
    ensures bs[k].start < tail && bs[k].start % 2 == 0
  {
    AllApart(bs, 0, tail);
    assert Node(items, bs, tail, k) && Piece(bs, k, tail);
  }

  lemma InsideNotFree(bs: seq<Block>, fl: seq<int>, tail: nat, k: nat, q: int)
    requires Tiles(bs, 0, tail) && Exact(bs, fl) && k < |bs| && bs[k].start < q < bs[k].end
    ensures q !in fl
  {
    AllApart(bs, 0, tail);
    forall m ensures !FreeBlock(bs, m, q) {
      assert m < k || m == k || m > k;
    }
  }

  /** The free list has, among places in blocks i to j, just the free ones of them. */
  lemma FreeInRange(bs: seq<Block>, fl: seq<int>, tail: nat, i: nat, j: nat, p: int)
    requires Tiles(bs, 0, tail) && Exact(bs, fl) && i < j <= |bs|
    ensures p in fl && bs[i].start <= p < bs[j - 1].end <==> exists m :: i <= m < j && FreeBlock(bs, m, p)
  {
    AllApart(bs, 0, tail);
    if p in fl && bs[i].start <= p < bs[j - 1].end {
      var m :| FreeBlock(bs, m, p);
      OutsideOr(bs, tail, i, j, m);
    }
  }

  lemma OutsideOr(bs: seq<Block>, tail: nat, i: nat, j: nat, k: nat)
    requires Tiles(bs, 0, tail) && i < j <= |bs| && k < |bs| && bs[i].start <= bs[k].start < bs[j - 1].end
    ensures i <= k < j
  {
    AllApart(bs, 0, tail);
  }

  // ----- What the operations do to the layout -----

  /** The free list after block k has been handed out. */
  ghost function CarvedList(bs: seq<Block>, fl: seq<int>, k: nat, n: nat): seq<int>
    requires k < |bs|
  {
    var mid := Carve(bs[k], n);
    (if |mid| == 2 then [mid[1].start] else []) + Without(fl, bs[k].start)
  }

  lemma Carved(bs: seq<Block>, fl: seq<int>, available: int, tail: nat, k: nat, n: nat)
    requires Shaped(bs, fl, available, tail) && Distinct(fl) && Fits(bs, k, n) && n % 2 == 0
    ensures var r, mid := Splice(bs, k, k + 1, Carve(bs[k], n)), Carve(bs[k], n);
            && Shaped(r, CarvedList(bs, fl, k, n),
                      available - (if |mid| == 2 then n + HEADER else bs[k].Room(HEADER)), tail)
            && Live(r) == Live(bs) + {mid[0]} && mid[0] !in Live(bs)
  {
    var mid := Carve(bs[k], n);
    CarvedTiles(bs, tail, k, n);
    assert bs[k..k + 1] == [bs[k]];
    TotalOne(bs[k], FreeRoom);
    assert k + 1 < |bs| ==> Parted(bs, k + 1);
    CarvedFree(bs, fl, tail, k, n);
    Reshaped(bs, fl, available, tail, k, k + 1, mid, CarvedList(bs, fl, k, n));
    if mid[0] in Live(bs) {
      var m :| 0 <= m < |bs| && bs[m] == mid[0];
      SameStart(bs, 0, tail, m, k);
    }
  }

  lemma CarvedTiles(bs: seq<Block>, tail: nat, k: nat, n: nat)
    requires Tiles(bs, 0, tail) && Fits(bs, k, n) && n % 2 == 0
    ensures var mid := Carve(bs[k], n);
            && Tiles(mid, bs[k].start, bs[k].end) && Coalesced(mid) && Roomy(mid) && mid[0].used
            && Total(mid, FreeRoom) == if |mid| == 2 then bs[k].Room(HEADER) - n - HEADER else 0
  {
    var mid := Carve(bs[k], n);
    AllApart(bs, 0, tail);
    if |mid| == 2 {
      TwoTile(mid[0], mid[1]);
      TotalTwo(mid[0], mid[1], FreeRoom);
    } else {
      OneTiles(mid[0]);
      TotalOne(mid[0], FreeRoom);
    }
  }

  lemma CarvedFree(bs: seq<Block>, fl: seq<int>, tail: nat, k: nat, n: nat)
    requires Tiles(bs, 0, tail) && Exact(bs, fl) && Distinct(fl) && Fits(bs, k, n)
    ensures forall p :: p in CarvedList(bs, fl, k, n) <==>
                      (p in fl && !(bs[k].start <= p < bs[k].end)) || IsFree(Carve(bs[k], n), p)
  {
    var mid, fl1 := Carve(bs[k], n), CarvedList(bs, fl, k, n);
    WithoutDistinct(fl, bs[k].start);
    forall p ensures p in fl1 <==> (p in fl && !(bs[k].start <= p < bs[k].end)) || IsFree(mid, p) {
      FreeInRange(bs, fl, tail, k, k + 1, p);
      assert |mid| == 2 ==> FreeBlock(mid, 1, mid[1].start);
      assert FreeBlock(bs, k, p) <==> p == bs[k].start;
    }
  }

  /** The first and the last of the blocks that become one when block k is freed, the last one excluded. */
  ghost function Lo(bs: seq<Block>, k: nat): (i: nat)
    requires k < |bs|
    ensures i <= k
  {
    if k > 0 && !bs[k - 1].used then k - 1 else k
  }

  ghost function Hi(bs: seq<Block>, k: nat): (j: nat)
    requires k < |bs|
    ensures k < j <= |bs|
  {
    if k + 1 < |bs| && !bs[k + 1].used then k + 2 else k + 1
  }

  ghost function Merged(bs: seq<Block>, k: nat): Block
    requires k < |bs|
  {
    Block(bs[Lo(bs, k)].start, bs[Hi(bs, k) - 1].end, false)
  }

  /** The free list without the block behind block k. */
  ghost function DropNext(bs: seq<Block>, fl: seq<int>, k: nat): seq<int>
    requires k < |bs|
  {
    if Hi(bs, k) == k + 2 then Without(fl, bs[k + 1].start) else fl
  }

  /** A freed block goes to the front of the free list, unless it joins a free block in front of it. */
  ghost function FreedList(bs: seq<Block>, fl: seq<int>, k: nat): seq<int>
    requires k < |bs|
  {
    (if Lo(bs, k) == k then [bs[k].start] else []) + DropNext(bs, fl, k)
  }

  lemma MergedTiles(bs: seq<Block>, tail: nat, k: nat)
    requires Tiles(bs, 0, tail) && Coalesced(bs) && Roomy(bs) && k < |bs| && bs[k].used
    ensures var i, j, m := Lo(bs, k), Hi(bs, k), Merged(bs, k);
            && Tiles([m], bs[i].start, bs[j - 1].end) && Roomy([m])
            && (i > 0 ==> bs[i - 1].used) && (j < |bs| ==> bs[j].used)
            && Total([m], FreeRoom) == Total(bs[i..j], FreeRoom) + bs[k].Room(HEADER) + (j - i - 1) * HEADER
  {
    var i, j, m := Lo(bs, k), Hi(bs, k), Merged(bs, k);
    AllApart(bs, 0, tail);
    assert i < k && k > 1 ==> Parted(bs, k - 1);
    assert j == k + 2 && j < |bs| ==> Parted(bs, k + 2);
    OneTiles(m);
    TotalOne(m, FreeRoom);
    MergedRoom(bs, tail, k);
  }

  lemma MergedRoom(bs: seq<Block>, tail: nat, k: nat)
    requires Tiles(bs, 0, tail) && k < |bs| && bs[k].used
    ensures Merged(bs, k).Room(HEADER) ==
              Total(bs[Lo(bs, k)..Hi(bs, k)], FreeRoom) + bs[k].Room(HEADER) + (Hi(bs, k) - Lo(bs, k) - 1) * HEADER
  {
    var i, j := Lo(bs, k), Hi(bs, k);
    assert Piece(bs, k, tail) && (i < k ==> Piece(bs, k - 1, tail));
    TotalRange(bs, i, k, j, FreeRoom);
    TotalRange(bs, k, k + 1, j, FreeRoom);
    TotalAt(bs, k, FreeRoom);
    if i < k {
      TotalAt(bs, k - 1, FreeRoom);
    }
    if j == k + 2 {
      TotalAt(bs, k + 1, FreeRoom);
    }
  }

  lemma DroppedNext(bs: seq<Block>, fl: seq<int>, tail: nat, i: nat, k: nat, p: int)
    requires Tiles(bs, 0, tail) && Exact(bs, fl) && Distinct(fl) && i <= k < |bs| && k <= i + 1 && bs[k].used
    requires i < k ==> !bs[i].used
    ensures p in DropNext(bs, fl, k) <==>
              (p in fl && !(bs[i].start <= p < bs[Hi(bs, k) - 1].end)) || (i < k && p == bs[i].start)
  {
    AllApart(bs, 0, tail);
    FreeInRange(bs, fl, tail, i, Hi(bs, k), p);
    if i < k {
      assert FreeBlock(bs, i, bs[i].start);
    }
    if Hi(bs, k) == k + 2 {
      WithoutDistinct(fl, bs[k + 1].start);
      assert FreeBlock(bs, k + 1, bs[k + 1].start);
    }
  }

  lemma Freed(bs: seq<Block>, fl: seq<int>, available: int, tail: nat, k: nat)
    requires Shaped(bs, fl, available, tail) && Distinct(fl) && k < |bs| && bs[k].used
    ensures var i, j := Lo(bs, k), Hi(bs, k);
            var r := Splice(bs, i, j, [Merged(bs, k)]);
            && Shaped(r, FreedList(bs, fl, k), available + bs[k].Room(HEADER) + (j - i - 1) * HEADER, tail)
            && Live(r) == Live(bs) - {bs[k]}
  {
    FreedShaped(bs, fl, available, tail, k);
    FreedTotal(bs, tail, k);
    FreedLive(bs, tail, k);
  }

  lemma FreedTotal(bs: seq<Block>, tail: nat, k: nat)
    requires Tiles(bs, 0, tail) && Coalesced(bs) && Roomy(bs) && k < |bs| && bs[k].used
    ensures Total([Merged(bs, k)], FreeRoom) ==
              Total(bs[Lo(bs, k)..Hi(bs, k)], FreeRoom) + bs[k].Room(HEADER) + (Hi(bs, k) - Lo(bs, k) - 1) * HEADER
  {
    MergedTiles(bs, tail, k);
  }

  lemma FreedLive(bs: seq<Block>, tail: nat, k: nat)
    requires Tiles(bs, 0, tail) && k < |bs| && bs[k].used
    ensures Live(Splice(bs, Lo(bs, k), Hi(bs, k), [Merged(bs, k)])) == Live(bs) - {bs[k]}
  {
    ReplaceLiveRange(bs, Lo(bs, k), Hi(bs, k), [Merged(bs, k)], tail);
    LiveMiddle(bs, Lo(bs, k), Hi(bs, k), k);
    LiveOne(Merged(bs, k));
  }

  lemma FreedShaped(bs: seq<Block>, fl: seq<int>, available: int, tail: nat, k: nat)
    requires Shaped(bs, fl, available, tail) && Distinct(fl) && k < |bs| && bs[k].used
    ensures var i, j, mid := Lo(bs, k), Hi(bs, k), [Merged(bs, k)];
            && Shaped(Splice(bs, i, j, mid), FreedList(bs, fl, k),
                      available - Total(bs[i..j], FreeRoom) + Total(mid, FreeRoom), tail)
  {
    MergedTiles(bs, tail, k);
    ListedAfter(bs, fl, tail, k);
    Reshaped(bs, fl, available, tail, Lo(bs, k), Hi(bs, k), [Merged(bs, k)], FreedList(bs, fl, k));
  }

  lemma ListedAfter(bs: seq<Block>, fl: seq<int>, tail: nat, k: nat)
    requires Tiles(bs, 0, tail) && Exact(bs, fl) && Distinct(fl) && k < |bs| && bs[k].used
    ensures Follows(bs, fl, Lo(bs, k), Hi(bs, k), [Merged(bs, k)], FreedList(bs, fl, k))
  {
    var m := Merged(bs, k);
    assert FreeBlock([m], 0, m.start);
    forall p ensures p in FreedList(bs, fl, k) <==>
                       (p in fl && !(bs[Lo(bs, k)].start <= p < bs[Hi(bs, k) - 1].end)) || IsFree([m], p) {
      DroppedNext(bs, fl, tail, Lo(bs, k), k, p);
    }
  }

  lemma LiveMiddle(bs: seq<Block>, i: nat, j: nat, k: nat)
    requires i <= k < j <= |bs| && bs[k].used && forall o :: i <= o < j && o != k ==> !bs[o].used
    ensures Live(bs[i..j]) == {bs[k]}
  {
    assert bs[i..j][k - i] == bs[k];
    forall b | b in Live(bs[i..j]) ensures b == bs[k] {
      var o :| 0 <= o < |bs[i..j]| && bs[i..j][o] == b;
      assert bs[i + o] == b;
    }
  }

  /** Block k of n words, and what is left up to the next used block. */
  ghost function Recut(bs: seq<Block>, k: nat, n: nat): seq<Block>
    requires k < |bs|
  {
    var q := bs[k].start + HEADER + n;
    [Block(bs[k].start, q, true), Block(q, bs[Hi(bs, k) - 1].end, false)]
  }

  /** A used block that is cut anew, into the free block behind it or out of itself. */
  lemma Recutted(bs: seq<Block>, fl: seq<int>, available: int, tail: nat, k: nat, n: nat)
    requires Shaped(bs, fl, available, tail) && Distinct(fl) && k < |bs| && bs[k].used && n % 2 == 0
    requires bs[k].start + HEADER + n + HEADER <= bs[Hi(bs, k) - 1].end
    ensures var j, mid := Hi(bs, k), Recut(bs, k, n);
            var r := Splice(bs, k, j, mid);
            && Shaped(r, [mid[1].start] + DropNext(bs, fl, k),
                      available - (if j == k + 2 then bs[k + 1].Room(HEADER) else 0) + mid[1].Room(HEADER), tail)
            && Live(r) == Live(bs) - {bs[k]} + {mid[0]}
  {
    var j, mid := Hi(bs, k), Recut(bs, k, n);
    RecutTiles(bs, tail, k, n);
    RecutShaped(bs, fl, available, tail, k, n);
    LiveMiddle(bs, k, j, k);
    LiveFirst(mid[0], mid[1]);
  }

  lemma RecutShaped(bs: seq<Block>, fl: seq<int>, available: int, tail: nat, k: nat, n: nat)
    requires Shaped(bs, fl, available, tail) && Distinct(fl) && k < |bs| && bs[k].used && n % 2 == 0
    requires bs[k].start + HEADER + n + HEADER <= bs[Hi(bs, k) - 1].end
    ensures var j, mid := Hi(bs, k), Recut(bs, k, n);
            && Shaped(Splice(bs, k, j, mid), [mid[1].start] + DropNext(bs, fl, k),
                      available - Total(bs[k..j], FreeRoom) + Total(mid, FreeRoom), tail)
            && Live(Splice(bs, k, j, mid)) == Live(bs) - Live(bs[k..j]) + Live(mid)
  {
    RecutTiles(bs, tail, k, n);
    RecutListed(bs, fl, tail, k, n);
    Reshaped(bs, fl, available, tail, k, Hi(bs, k), Recut(bs, k, n), [Recut(bs, k, n)[1].start] + DropNext(bs, fl, k));
  }

  lemma LiveOne(m: Block)
    requires !m.used
    ensures Live([m]) == {}
  {}

  lemma LiveFirst(a: Block, b: Block)
    requires a.used && !b.used
    ensures Live([a, b]) == {a}
  {
    assert [a, b][0] == a;
  }

  lemma RecutListed(bs: seq<Block>, fl: seq<int>, tail: nat, k: nat, n: nat)
    requires Tiles(bs, 0, tail) && Exact(bs, fl) && Distinct(fl) && k < |bs| && bs[k].used
    ensures forall p :: p in [Recut(bs, k, n)[1].start] + DropNext(bs, fl, k) <==>
                      (p in fl && !(bs[k].start <= p < bs[Hi(bs, k) - 1].end)) || IsFree(Recut(bs, k, n), p)
  {
    var mid := Recut(bs, k, n);
    assert FreeBlock(mid, 1, mid[1].start);
    forall p ensures p in [mid[1].start] + DropNext(bs, fl, k) <==>
                       (p in fl && !(bs[k].start <= p < bs[Hi(bs, k) - 1].end)) || IsFree(mid, p) {
      DroppedNext(bs, fl, tail, k, k, p);
    }
  }

  lemma RecutTiles(bs: seq<Block>, tail: nat, k: nat, n: nat)
    requires Tiles(bs, 0, tail) && Coalesced(bs) && k < |bs| && bs[k].used && n % 2 == 0
    requires bs[k].start + HEADER + n + HEADER <= bs[Hi(bs, k) - 1].end
    ensures var j, mid := Hi(bs, k), Recut(bs, k, n);
            && Tiles(mid, bs[k].start, bs[j - 1].end) && Coalesced(mid) && Roomy(mid) && (j < |bs| ==> bs[j].used)
            && Total(bs[k..j], FreeRoom) == (if j == k + 2 then bs[k + 1].Room(HEADER) else 0)
            && Total(mid, FreeRoom) == mid[1].Room(HEADER)
  {
    var j, mid := Hi(bs, k), Recut(bs, k, n);
    AllApart(bs, 0, tail);
    TwoTile(mid[0], mid[1]);
    TotalTwo(mid[0], mid[1], FreeRoom);
    if j == k + 2 {
      assert bs[k..j] == [bs[k], bs[k + 1]];
      TotalTwo(bs[k], bs[k + 1], FreeRoom);
      assert j < |bs| ==> Parted(bs, j);
    } else {
      assert bs[k..j] == [bs[k]];
      TotalOne(bs[k], FreeRoom);
    }
  }

  ghost predicate PointsAt(live: set<Block>, p: nat) {
    exists b :: b in live && b.start + HEADER == p
  }

  /** These are the pointers of the live blocks. */
  ghost predicate Holds(held: set<nat>, live: set<Block>) {
    forall p: nat {:trigger p in held} {:trigger PointsAt(live, p)} :: p in held <==> PointsAt(live, p)
  }

  lemma HoldsAdd(held: set<nat>, live: set<Block>, c: Block)
    requires Holds(held, live)
    ensures Holds(held + {c.start + HEADER}, live + {c})
  {
    var now, after := held + {c.start + HEADER}, live + {c};
    forall p: nat ensures p in now <==> PointsAt(after, p) {
      if PointsAt(live, p) {
        var b :| b in live && b.start + HEADER == p;
        assert b in after;
      }
      assert c in after;
    }
  }

  lemma HoldsDrop(bs: seq<Block>, held: set<nat>, ptr: nat)
    requires Holds(held, Live(bs))
    ensures Holds(held - {ptr}, Live(bs) - Held(bs, ptr))
  {
    var now, after := held - {ptr}, Live(bs) - Held(bs, ptr);
    forall p: nat ensures p in now <==> PointsAt(after, p) {
      if p in now {
        var b :| b in Live(bs) && b.start + HEADER == p;
        assert b in after;
      }
      if PointsAt(after, p) {
        var b :| b in after && b.start + HEADER == p;
        assert b in Live(bs) && b !in Held(bs, ptr);
        assert PointsAt(Live(bs), p);
      }
    }
  }

  /** A block cut anew or moved. */
  lemma HoldsResized(bs: seq<Block>, fl: seq<int>, k: nat, n: nat, r: nat, held: set<nat>, live: set<Block>)
    requires k < |bs| && bs[k].used && Holds(held, Live(bs)) && Held(bs, bs[k].start + HEADER) == {bs[k]}
    requires if InPlace(bs, k, n) then r == bs[k].start + HEADER && live == Live(bs) - {bs[k]} + {Recut(bs, k, n)[0]}
             else Moved(bs, fl, k, n, r, live)
    ensures Holds(held - {bs[k].start + HEADER} + {r}, live)
  {
    var p := bs[k].start + HEADER;
    HoldsDrop(bs, held, p);
    if InPlace(bs, k, n) {
      HoldsAdd(held - {p}, Live(bs) - {bs[k]}, Recut(bs, k, n)[0]);
    } else {
      var m: nat :| FirstFit(bs, fl, m, n) && k < |bs| && r == bs[m].start + HEADER
                    && live == Live(bs) - {bs[k]} + {Carve(bs[m], n)[0]};
      HoldsAdd(held - {p}, Live(bs) - {bs[k]}, Carve(bs[m], n)[0]);
    }
  }

  lemma HeldIsLive(bs: seq<Block>, held: set<nat>, p: nat)
    requires Holds(held, Live(bs)) && p in held
    ensures IsLive(bs, p)
  {
    var b :| b in Live(bs) && b.start + HEADER == p;
    var k :| 0 <= k < |bs| && bs[k] == b;
    assert LiveAt(bs, k, p);
  }

  // ----- The strict test -----

  lemma {:induction false} TotalAtLeast(bs: seq<Block>, k: nat)
    requires Roomy(bs) && k < |bs|
    ensures Total(bs, FreeRoom) >= FreeRoom(bs[k])
    decreases |bs|
  {
    if k > 0 {
      TotalAtLeast(bs[1..], k - 1);
      assert bs[0] in bs;
    } else {
      TotalNonNegative(bs[1..]);
    }
  }

  lemma {:induction false} TotalNonNegative(bs: seq<Block>)
    requires Roomy(bs)
    ensures Total(bs, FreeRoom) >= 0
  {
    if bs != [] {
      assert bs[0] in bs;
      TotalNonNegative(bs[1..]);
    }
  }

  /**
   * A block that is large enough is refused if and only if it has exactly the words of the request, and there is no
   * other free word.
   */
  lemma RefusedThoughFits(bs: seq<Block>, fl: seq<int>, available: int, tail: nat, k: nat, n: nat)
    requires Shaped(bs, fl, available, tail) && Fits(bs, k, n)
    ensures available <= n <==> available == n == bs[k].Room(HEADER)
  {
    TotalAtLeast(bs, k);
  }

  /** It happens: the heap as rt_memheap_init leaves it refuses a request for all of it. */
  lemma WholeHeapRefused(tail: nat)
    requires tail % 2 == 0 && tail >= HEADER + MINI
    ensures var bs, n := [Block(0, tail, false)], tail - HEADER;
            Shaped(bs, [0], n, tail) && Fits(bs, 0, n) && !(n < n)
  {
    var bs := [Block(0, tail, false)];
    OneTiles(bs[0]);
    TotalOne(bs[0], FreeRoom);
    forall p ensures p in [0] <==> IsFree(bs, p) {
      assert p == 0 ==> FreeBlock(bs, 0, p);
    }
  }

  function Payload(b: Block): (n: nat) {
    if b.Room(HEADER) < 0 then 0 else b.Room(HEADER)
  }

  /** Block k has room for n words, and not so much more that another block fits. */
  ghost predicate Fitting(bs: seq<Block>, k: int, n: nat) {
    0 <= k < |bs| && n <= bs[k].Room(HEADER) <= n + HEADER + MINI
  }

  /** Block k has much more room than n words, or has it together with the free block behind it. */
  ghost predicate InPlace(bs: seq<Block>, k: int, n: nat) {
    && 0 <= k < |bs|
    && (n + HEADER + MINI < bs[k].Room(HEADER)
        || (bs[k].Room(HEADER) < n && Hi(bs, k) == k + 2 && n + MINI < bs[k].Room(HEADER) + bs[k + 1].Room(HEADER)))
  }

  /** Block k has gone to the block that an allocation finds. */
  ghost predicate Moved(bs: seq<Block>, fl: seq<int>, k: nat, n: nat, r: nat, live: set<Block>) {
    exists m: nat :: FirstFit(bs, fl, m, n) && k < |bs| && r == bs[m].start + HEADER
                     && live == Live(bs) - {bs[k]} + {Carve(bs[m], n)[0]}
  }

  lemma MovedIs(bs: seq<Block>, fl: seq<int>, k: nat, n: nat, m: nat, live: set<Block>)
    requires FirstFit(bs, fl, m, n) && k < |bs| && bs[k].used
    requires live == Live(bs) + {Carve(bs[m], n)[0]} - {bs[k]} && Carve(bs[m], n)[0] != bs[k]
    ensures Moved(bs, fl, k, n, bs[m].start + HEADER, live)
  {
    assert live == Live(bs) - {bs[k]} + {Carve(bs[m], n)[0]};
  }

  // ----- What a request for so many bytes gets -----

  /** Sizes are even numbers of words, so a block fits when it holds the bytes. */
  lemma FitsIs(bs: seq<Block>, tail: nat, k: nat, size: Bytes)
    requires Tiles(bs, 0, tail) && tail % 2 == 0 && k < |bs| && size <= SIZE_LIMIT - 8
    ensures Fits(bs, k, Need(size)) <==> CanHold(bs[k], HEADER, MINI, size)
    ensures Fits(bs, k, Need(size)) ==> HandedOut(Carve(bs[k], Need(size))[0], bs[k], HEADER, MINI, size)
    ensures bs[k].Room(HEADER) == Need(size) <==>
      bs[k].Room(HEADER) >= MINI && size <= 4 * bs[k].Room(HEADER) < Larger(size + 8, 4 * MINI + 1)
  {
    EvenEnds(bs, tail, k);
  }

  /** The first block of the free list that can hold size bytes has given block g, which is live now, for them. */
  ghost predicate Serves(bs: seq<Block>, fl: seq<int>, k: int, live: set<Block>, g: Block, size: Bytes) {
    && 0 <= k < |bs| && HandedOut(g, bs[k], HEADER, MINI, size) && live == Live(bs) + {g} && g !in Live(bs)
    && exists i :: 0 <= i < |fl| && fl[i] == bs[k].start && NoneHolds(bs, fl[..i], size)
  }

  ghost predicate NoneHolds(bs: seq<Block>, fl: seq<int>, size: Bytes) {
    forall p, m :: p in fl && FreeBlock(bs, m, p) ==> !CanHold(bs[m], HEADER, MINI, size)
  }

  /** No block can hold size bytes, or one that just holds them is all that is available. */
  ghost predicate Refuses(bs: seq<Block>, available: int, size: Bytes) {
    forall b :: b in bs && CanHold(b, HEADER, MINI, size) ==>
      available == b.Room(HEADER) && 4 * available < Larger(size + 8, 4 * MINI + 1)
  }

  /** What a request for size bytes leads to. */
  ghost predicate Served(bs: seq<Block>, fl: seq<int>, available: int, live: set<Block>, size: Bytes, r: Option<nat>) {
    if r.None? then Refuses(bs, available, size)
    else !Refuses(bs, available, size) && exists k, g :: Serves(bs, fl, k, live, g, size) && r.value == g.start + HEADER
  }

  lemma RefusesIs(bs: seq<Block>, fl: seq<int>, available: int, tail: nat, size: Bytes)
    requires Shaped(bs, fl, available, tail) && size <= SIZE_LIMIT - 8
    ensures Refuses(bs, available, size) <==> available <= Need(size) || forall m :: !Fits(bs, m, Need(size))
  {
    forall m | 0 <= m < |bs|
      ensures Fits(bs, m, Need(size)) <==> CanHold(bs[m], HEADER, MINI, size)
      ensures Fits(bs, m, Need(size)) ==> (available <= Need(size) <==>
        available == bs[m].Room(HEADER) && 4 * available < Larger(size + 8, 4 * MINI + 1))
    {
      FitsIs(bs, tail, m, size);
      if Fits(bs, m, Need(size)) {
        RefusedThoughFits(bs, fl, available, tail, m, Need(size));
      }
    }
    if m :| Fits(bs, m, Need(size)) {
      assert bs[m] in bs;
    }
  }

  lemma ServesIs(bs: seq<Block>, fl: seq<int>, available: int, tail: nat, live: set<Block>, k: nat, size: Bytes)
    requires Shaped(bs, fl, available, tail) && size <= SIZE_LIMIT - 8 && FirstFit(bs, fl, k, Need(size))
    requires live == Live(bs) + {Carve(bs[k], Need(size))[0]} && Carve(bs[k], Need(size))[0] !in Live(bs)
    ensures Serves(bs, fl, k, live, Carve(bs[k], Need(size))[0], size)
  {
    var n := Need(size);
    FitsIs(bs, tail, k, size);
    var i :| 0 <= i < |fl| && fl[i] == bs[k].start && forall j :: 0 <= j < i ==> !FitsAt(bs, fl[j], n);
    forall p, m | p in fl[..i] && FreeBlock(bs, m, p) ensures !CanHold(bs[m], HEADER, MINI, size) {
      var j :| 0 <= j < i && fl[j] == p;
      FitsIs(bs, tail, m, size);
      assert !FitsAt(bs, fl[j], n);
    }
  }

  lemma ServedOr(bs: seq<Block>, fl: seq<int>, available: int, tail: nat, live: set<Block>, k: nat, size: Bytes,
                 r: Option<nat>)
    requires Shaped(bs, fl, available, tail) && size <= SIZE_LIMIT - 8
    requires r.None? <==> available <= Need(size) || forall m :: !Fits(bs, m, Need(size))
    requires r.Some? ==>
      && FirstFit(bs, fl, k, Need(size)) && r.value == bs[k].start + HEADER
      && live == Live(bs) + {Carve(bs[k], Need(size))[0]} && Carve(bs[k], Need(size))[0] !in Live(bs)
    ensures Served(bs, fl, available, live, size, r)
  {
    RefusesIs(bs, fl, available, tail, size);
    if r.Some? {
      ServesIs(bs, fl, available, tail, live, k, size);
    }
  }

  /** Block b has become g in place. */
  ghost predicate Reshapes(bs: seq<Block>, live: set<Block>, b: Block, g: Block) {
    g.used && g.start == b.start && live == Live(bs) - {b} + {g}
  }

  /** As many bytes as the alignment and the minimum ask for. */
  ghost predicate Tight(g: Block, size: Bytes) {
    size <= 4 * g.Room(HEADER) < Larger(size + 8, 4 * MINI + 1)
  }

  /** What resizing the live block k to size bytes leads to. */
  ghost predicate ResizedTo(bs: seq<Block>, fl: seq<int>, available: int, k: nat, live: set<Block>, size: Bytes,
                            r: Option<nat>)
    requires k < |bs|
  {
    var b, least := bs[k], Larger(size, 4 * MINI);
    var next := if k + 1 < |bs| && !bs[k + 1].used then bs[k + 1].Room(HEADER) else -b.Room(HEADER);
    if least <= 4 * b.Room(HEADER) < least + 4 * (HEADER + MINI + 2) then
      r == Some(b.start + HEADER) && live == Live(bs)
    else if least <= 4 * b.Room(HEADER) || least <= 4 * (b.Room(HEADER) + next - MINI - 2) then
      r == Some(b.start + HEADER) && exists g :: Reshapes(bs, live, b, g) && Tight(g, size)
    else if r.None? then Refuses(bs, available, size)
    else
      && !Refuses(bs, available, size) && b !in live
      && exists m, g :: Serves(bs, fl, m, live + {b}, g, size) && r == Some(g.start + HEADER)
  }

  /** When a resize leaves the block alone, cuts it in place, or moves it. */
  lemma WhereResized(bs: seq<Block>, tail: nat, k: nat, size: Bytes)
    requires Tiles(bs, 0, tail) && tail % 2 == 0 && k < |bs| && size <= SIZE_LIMIT - 8
    ensures var b, least, n := bs[k], Larger(size, 4 * MINI), Need(size);
      var next := if k + 1 < |bs| && !bs[k + 1].used then bs[k + 1].Room(HEADER) else -b.Room(HEADER);
      && (Fitting(bs, k, n) <==> least <= 4 * b.Room(HEADER) < least + 4 * (HEADER + MINI + 2))
      && (InPlace(bs, k, n) && !Fitting(bs, k, n) <==>
          !(least <= 4 * b.Room(HEADER) < least + 4 * (HEADER + MINI + 2))
          && (least <= 4 * b.Room(HEADER) || least <= 4 * (b.Room(HEADER) + next - MINI - 2)))
      && Tight(Recut(bs, k, n)[0], size)
  {
    EvenEnds(bs, tail, k);
    if k + 1 < |bs| {
      EvenEnds(bs, tail, k + 1);
    }
  }

  lemma MovedServes(bs: seq<Block>, fl: seq<int>, available: int, tail: nat, k: nat, live: set<Block>, size: Bytes,
                    r: nat)
    requires Shaped(bs, fl, available, tail) && size <= SIZE_LIMIT - 8 && k < |bs| && bs[k].used
    requires Moved(bs, fl, k, Need(size), r, live)
    ensures bs[k] !in live && exists m, g :: Serves(bs, fl, m, live + {bs[k]}, g, size) && r == g.start + HEADER
  {
    var n := Need(size);
    var m: nat :| FirstFit(bs, fl, m, n) && r == bs[m].start + HEADER
                  && live == Live(bs) - {bs[k]} + {Carve(bs[m], n)[0]};
    NewPlace(bs, tail, k, m, n);
    assert live + {bs[k]} == Live(bs) + {Carve(bs[m], n)[0]};
    ServesIs(bs, fl, available, tail, live + {bs[k]}, m, size);
  }

  lemma ResizedIs(bs: seq<Block>, fl: seq<int>, available: int, tail: nat, k: nat, live: set<Block>, size: Bytes,
                  r: Option<nat>)
    requires Shaped(bs, fl, available, tail) && size <= SIZE_LIMIT - 8 && k < |bs| && bs[k].used
    requires var n, p := Need(size), bs[k].start + HEADER;
      if Fitting(bs, k, n) then r == Some(p) && live == Live(bs)
      else if InPlace(bs, k, n) then r == Some(p) && live == Live(bs) - {bs[k]} + {Recut(bs, k, n)[0]}
      else if available <= n || forall m :: !Fits(bs, m, n) then r == None
      else r.Some? && Moved(bs, fl, k, n, r.value, live)
    ensures ResizedTo(bs, fl, available, k, live, size, r)
  {
    WhereResized(bs, tail, k, size);
    RefusesIs(bs, fl, available, tail, size);
    if !Fitting(bs, k, Need(size)) {
      if InPlace(bs, k, Need(size)) {
        assert Reshapes(bs, live, bs[k], Recut(bs, k, Need(size))[0]);
      } else if r.Some? {
        MovedServes(bs, fl, available, tail, k, live, size, r.value);
      }
    }
  }

  /** What is handed out begins elsewhere than any used block, and has the room. */
  lemma NewPlace(bs: seq<Block>, tail: nat, k: nat, m: nat, n: nat)
    requires Tiles(bs, 0, tail) && k < |bs| && bs[k].used && Fits(bs, m, n)
    ensures var c := Carve(bs[m], n)[0];
            c.start == bs[m].start != bs[k].start && n <= Payload(c) && c.used && c !in Live(bs)
  {
    var c := Carve(bs[m], n)[0];
    if c in Live(bs) {
      var o :| 0 <= o < |bs| && bs[o] == c;
      SameStart(bs, 0, tail, o, m);
    }
    if bs[m].start == bs[k].start {
      SameStart(bs, 0, tail, m, k);
    }
  }

  /** An aligned request stays as it is. */
  lemma NeedAligned(n: nat)
    requires n % 2 == 0 && MINI <= n && 4 * n <= SIZE_LIMIT - 8
    ensures Need(4 * n) == n
  {
    AlignedStays(n);
  }

  /** Where two live blocks lie. */
  lemma LivePlaces(bs: seq<Block>, tail: nat, b: Block, c: Block)
    requires Tiles(bs, 0, tail) && Roomy(bs) && b in bs && c in bs && b != c
    ensures b.start + HEADER + Payload(b) <= tail && c.start + HEADER + Payload(c) <= tail
    ensures b.start + HEADER + Payload(b) <= c.start || c.start + HEADER + Payload(c) <= b.start
  {
    var i: nat :| i < |bs| && bs[i] == b;
    var j: nat :| j < |bs| && bs[j] == c;
    TwoApart(bs, tail, i, j);
  }

  lemma StillHeld(bs: seq<Block>, tail: nat, b: Block)
    requires Tiles(bs, 0, tail) && b in Live(bs)
    ensures IsLive(bs, b.start + HEADER) && Held(bs, b.start + HEADER) == {b}
  {
    var i: nat :| i < |bs| && bs[i] == b;
    assert LiveAt(bs, i, b.start + HEADER);
    HeldOne(bs, tail, i);
  }

  /** A block and the free block behind it are adjacent. */
  lemma Spans(bs: seq<Block>, tail: nat, k: nat)
    requires Tiles(bs, 0, tail) && k + 1 < |bs|
    ensures bs[k + 1].start == bs[k].end < bs[k + 1].end
  {
    assert Piece(bs, k, tail) && Piece(bs, k + 1, tail);
  }

  lemma CanRecut(bs: seq<Block>, tail: nat, k: nat, n: nat)
    requires Tiles(bs, 0, tail) && k < |bs| && n + HEADER + MINI < bs[k].Room(HEADER)
    ensures bs[k].start + HEADER + n + HEADER <= bs[Hi(bs, k) - 1].end
    ensures Recut(bs, k, n)[1].Room(HEADER) >= if Hi(bs, k) == k + 2 then bs[k + 1].Room(HEADER) else 0
  {
    if Hi(bs, k) == k + 2 {
      Spans(bs, tail, k);
    }
  }

  /** No place strictly inside a used block and the free block behind it is on the list without that block. */
  lemma FreeInRangeNot(bs: seq<Block>, fl: seq<int>, tail: nat, k: nat, q: int)
    requires Tiles(bs, 0, tail) && Exact(bs, fl) && Distinct(fl) && k + 1 < |bs| && bs[k].used && !bs[k + 1].used
    requires bs[k].start < q < bs[k + 1].end
    ensures q !in Without(fl, bs[k + 1].start)
  {
    DroppedNext(bs, fl, tail, k, k, q);
  }

  /** Taking in the block behind and cutting again. */
  lemma TwoSplices(bs: seq<Block>, k: nat, n: nat)
    requires k + 1 < |bs| && Hi(bs, k) == k + 2 && bs[k].used
    ensures var b1 := Splice(bs, k, k + 2, [Block(bs[k].start, bs[k + 1].end, true)]);
            Splice(b1, k, k + 1, Recut(bs, k, n)) == Splice(bs, k, k + 2, Recut(bs, k, n))
  {}

  /** Cutting, and joining the part cut off with the block behind it. */
  lemma CutThenJoin(bs: seq<Block>, fl: seq<int>, k: nat, n: nat)
    requires k < |bs| && bs[k].used
    ensures var q := bs[k].start + HEADER + n;
            var b1 := Splice(bs, k, k + 1, [Block(bs[k].start, q, true), Block(q, bs[k].end, false)]);
            && |b1| == |bs| + 1 && b1[k + 1] == Block(q, bs[k].end, false)
            && (k + 2 < |b1| ==> b1[k + 2] == bs[k + 1])
            && JoinRight(b1, k + 1) == Splice(bs, k, Hi(bs, k), Recut(bs, k, n))
            && JoinRight(b1, k + 1)[k + 1] == Recut(bs, k, n)[1]
            && (Hi(b1, k + 1) == k + 3 <==> Hi(bs, k) == k + 2)
  {
    var q := bs[k].start + HEADER + n;
    var b1 := Splice(bs, k, k + 1, [Block(bs[k].start, q, true), Block(q, bs[k].end, false)]);
    assert k + 1 < |bs| ==> b1[k + 2] == bs[k + 1];
    if Hi(bs, k) == k + 2 {
      assert b1[k + 3..] == bs[k + 2..];
      assert b1[..k + 1] == bs[..k] + [Block(bs[k].start, q, true)];
    }
    assert JoinRight(b1, k + 1) == Splice(bs, k, Hi(bs, k), Recut(bs, k, n));
  }

  ghost function JoinLeft(bs: seq<Block>, k: nat): seq<Block>
    requires k < |bs|
  {
    if Lo(bs, k) == k then bs else Splice(bs, k - 1, k + 1, [Block(bs[k - 1].start, bs[k].end, false)])
  }

  ghost function JoinRight(bs: seq<Block>, k: nat): seq<Block>
    requires k < |bs|
  {
    if Hi(bs, k) == k + 1 then bs else Splice(bs, k, k + 2, [Block(bs[k].start, bs[k + 1].end, false)])
  }

  /** The two merges one after the other. */
  lemma Joins(bs: seq<Block>, fl: seq<int>, k: nat)
    requires k < |bs|
    ensures var i, b1 := Lo(bs, k), bs[k := bs[k].(used := false)];
            var b2 := JoinLeft(b1, k);
            && i == Lo(b1, k) && i < |b2| && b2[i].start == bs[i].start && !b2[i].used
            && DropNext(b2, fl, i) == DropNext(bs, fl, k) && Hi(b2, i) - i == Hi(bs, k) - k
            && (Hi(bs, k) == k + 2 ==> i + 1 < |b2| && b2[i + 1] == bs[k + 1])
            && JoinRight(b2, i) == Splice(bs, i, Hi(bs, k), [Merged(bs, k)])
            && JoinRight(b2, i)[i].start == bs[i].start
  {
    var i, m := Lo(bs, k), Block(bs[Lo(bs, k)].start, bs[k].end, false);
    JoinedLeft(bs, k);
    JoinedRight(bs, i, k, m);
  }

  lemma JoinedLeft(bs: seq<Block>, k: nat)
    requires k < |bs|
    ensures var i, b1 := Lo(bs, k), bs[k := bs[k].(used := false)];
            i == Lo(b1, k) && JoinLeft(b1, k) == Splice(bs, i, k + 1, [Block(bs[i].start, bs[k].end, false)])
  {
    var i, b1 := Lo(bs, k), bs[k := bs[k].(used := false)];
    assert JoinLeft(b1, k) == Splice(bs, i, k + 1, [Block(bs[i].start, bs[k].end, false)]);
  }

  lemma JoinedRight(bs: seq<Block>, i: nat, k: nat, m: Block)
    requires i <= k < |bs|
    ensures var b2 := Splice(bs, i, k + 1, [m]);
            && i < |b2| && b2[i] == m && (k + 1 < |bs| ==> i + 1 < |b2| && b2[i + 1] == bs[k + 1])
            && Hi(b2, i) - i == Hi(bs, k) - k
            && JoinRight(b2, i) ==
                Splice(bs, i, Hi(bs, k), [if Hi(bs, k) == k + 1 then m else Block(m.start, bs[k + 1].end, false)])
  {
    var b2 := Splice(bs, i, k + 1, [m]);
    assert b2[i] == m && (k + 1 < |bs| ==> b2[i + 1] == bs[k + 1]);
    if Hi(bs, k) == k + 2 {
      assert b2[i + 2..] == bs[k + 2..];
      assert b2[..i] == bs[..i];
    }
  }

  lemma UsedNotFree(bs: seq<Block>, fl: seq<int>, tail: nat, k: nat)
    requires Tiles(bs, 0, tail) && Exact(bs, fl) && k < |bs| && bs[k].used
    ensures bs[k].start !in fl
  {
    forall m ensures !FreeBlock(bs, m, bs[k].start) {
      if 0 <= m < |bs| && bs[m].start == bs[k].start {
        SameStart(bs, 0, tail, m, k);
      }
    }
  }

  /** Where a free block is on the free list. */
  ghost function Listed(bs: seq<Block>, fl: seq<int>, k: nat): (i: nat)
    requires k < |bs| && !bs[k].used && Exact(bs, fl)
    ensures i < |fl| && fl[i] == bs[k].start
  {
    assert FreeBlock(bs, k, bs[k].start) && bs[k].start in fl;
    var i: nat :| i < |fl| && fl[i] == bs[k].start;
    i
  }

  ghost function Held(bs: seq<Block>, ptr: int): set<Block> {
    set b | b in bs && b.used && b.start + HEADER == ptr
  }

  lemma HeldOne(bs: seq<Block>, tail: nat, k: nat)
    requires Tiles(bs, 0, tail) && k < |bs| && bs[k].used
    ensures Held(bs, bs[k].start + HEADER) == {bs[k]}
  {
    var ptr := bs[k].start + HEADER;
    forall b | b in Held(bs, ptr) ensures b == bs[k] {
      var m :| 0 <= m < |bs| && bs[m] == b;
      SameStart(bs, 0, tail, m, k);
    }
  }

  /** A block found too small is too small wherever it is looked for. */
  lemma NotThere(bs: seq<Block>, tail: nat, k: nat, n: nat)
    requires Tiles(bs, 0, tail) && k < |bs| && bs[k].Room(HEADER) < n
    ensures !FitsAt(bs, bs[k].start, n)
  {
    if FitsAt(bs, bs[k].start, n) {
      var m :| FreeBlock(bs, m, bs[k].start) && bs[m].Room(HEADER) >= n;
      SameStart(bs, 0, tail, m, k);
    }
  }
}
