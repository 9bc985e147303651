/**
 * Blocks that tile an allocator's memory, the picture behind the headers of rt-thread/src/mem.c and
 * rt-thread/src/memheap.c. Offsets count 32-bit words.
 */
module BlockLayout {
  /** The smallest header of an allocator: every block has room for four words. */
  const SZ := 4

  const SIZE_LIMIT := 0x1_0000_0000

  /** A request in bytes. */
  type Bytes = n: nat | n < SIZE_LIMIT

  /** RT_ALIGN(size, 8) in words, with the wrap-around of 32-bit addition. */
  function Aligned(size: Bytes): (n: nat) {
    (size + 7) % SIZE_LIMIT / 8 * 2
  }

  /** The aligned size covers the request exactly when the addition does not wrap. */
  lemma AlignedCovers(size: Bytes)
    ensures size <= 4 * Aligned(size) <==> size <= SIZE_LIMIT - 8
    ensures size <= SIZE_LIMIT - 8 ==> 4 * Aligned(size) < size + 8
    ensures Aligned(size) % 2 == 0
  {
    assert Aligned(size) == (size + 7) % SIZE_LIMIT / 8 * 2;
    if size > SIZE_LIMIT - 8 {
      assert (size + 7) % SIZE_LIMIT == size + 7 - SIZE_LIMIT;
    }
  }

  /** An aligned size stays as it is. */
  lemma AlignedStays(n: nat)
    requires n % 2 == 0 && 4 * n < SIZE_LIMIT
    ensures Aligned(4 * n) == n
  {
    AlignedCovers(4 * n);
  }

  datatype Block = Block(start: nat, end: nat, used: bool) {
    /** What is left for the client behind a header of the given size. */
    function Room(header: nat): int {
      end - start - header
    }
  }

  function Larger(a: int, b: int): (m: int)
    ensures m >= a && m >= b && (m == a || m == b)
  {
    if a > b then a else b
  }

  /** A free block that an allocator with this header and smallest payload can hand out for size bytes. */
  ghost predicate CanHold(b: Block, header: nat, mini: nat, size: Bytes) {
    !b.used && b.Room(header) >= mini && size <= 4 * b.Room(header)
  }

  /** Block g is what the free block b gives for size bytes: it holds them; it is all of b when the rest would be too
      small for a block of its own, else as little as the alignment allows; so it wastes less than such a rest. */
  ghost predicate HandedOut(g: Block, b: Block, header: nat, mini: nat, size: Bytes) {
    && !b.used && g.used && g.start == b.start
    && size <= 4 * g.Room(header) < Larger(size + 8, 4 * mini) + 4 * (header + mini)
    && if 4 * (b.Room(header) - header - mini) < Larger(size, 4 * mini) then g.end == b.end
       else 4 * g.Room(header) < Larger(size + 8, 4 * mini + 1)
  }

  ghost predicate Piece(bs: seq<Block>, k: int, hi: nat)
    requires 0 <= k < |bs|
  {
    && bs[k].start + SZ <= bs[k].end
    && bs[k].start % 2 == 0
    && bs[k].end == (if k + 1 < |bs| then bs[k + 1].start else hi)
  }

  /** The blocks cover lo..hi without gap or overlap, and each has room for its header. */
  ghost predicate Tiles(bs: seq<Block>, lo: nat, hi: nat) {
    && (if bs == [] then lo == hi else bs[0].start == lo)
    && forall k {:trigger Piece(bs, k, hi)} :: 0 <= k < |bs| ==> Piece(bs, k, hi)
  }

  /** Blocks begin and end at even words. */
  lemma EvenEnds(bs: seq<Block>, hi: nat, k: nat)
    requires Tiles(bs, 0, hi) && hi % 2 == 0 && k < |bs|
    ensures bs[k].start % 2 == 0 && bs[k].end % 2 == 0
  {
    assert Piece(bs, k, hi) && (k + 1 < |bs| ==> Piece(bs, k + 1, hi));
  }

  /** Block k and the block before it are not both free. */
  ghost predicate Parted(bs: seq<Block>, k: int)
    requires 0 < k < |bs|
  {
    bs[k - 1].used || bs[k].used
  }

  /** No two neighbours are both free. */
  ghost predicate Coalesced(bs: seq<Block>) {
    forall k {:trigger Parted(bs, k)} :: 0 < k < |bs| ==> Parted(bs, k)
  }

  ghost function Live(bs: seq<Block>): set<Block> {
    set b | b in bs && b.used
  }

  // ----- Facts about tilings -----

  lemma {:induction false} Apart(bs: seq<Block>, lo: nat, hi: nat, i: int, j: int)
    requires Tiles(bs, lo, hi) && 0 <= i < j < |bs|
    ensures bs[i].end <= bs[j].start
    decreases j - i
  {
    assert Piece(bs, i, hi) && Piece(bs, i + 1, hi);
    if i + 1 < j {
      Apart(bs, lo, hi, i + 1, j);
    }
  }

  lemma AllApart(bs: seq<Block>, lo: nat, hi: nat)
    requires Tiles(bs, lo, hi)
    ensures forall i, j :: 0 <= i < j < |bs| ==> bs[i].end <= bs[j].start
    ensures forall i :: 0 <= i < |bs| ==> lo <= bs[i].start && bs[i].start + SZ <= bs[i].end <= hi
    ensures forall i :: 0 <= i < |bs| ==> bs[i].start % 2 == 0
  {
    forall i, j | 0 <= i < j < |bs| ensures bs[i].end <= bs[j].start {
      Apart(bs, lo, hi, i, j);
    }
    forall i | 0 <= i < |bs|
      ensures lo <= bs[i].start && bs[i].start + SZ <= bs[i].end <= hi && bs[i].start % 2 == 0
    {
      assert Piece(bs, 0, hi) && Piece(bs, i, hi) && Piece(bs, |bs| - 1, hi);
      if i > 0 {
        Apart(bs, lo, hi, 0, i);
      }
      if i < |bs| - 1 {
        Apart(bs, lo, hi, i, |bs| - 1);
      }
    }
  }

  /** Two blocks of one tiling that start together are the same block. */
  lemma SameStart(bs: seq<Block>, lo: nat, hi: nat, i: int, j: int)
    requires Tiles(bs, lo, hi) && 0 <= i < |bs| && 0 <= j < |bs| && bs[i].start == bs[j].start
    ensures i == j
  {
    AllApart(bs, lo, hi);
  }

  lemma TailTiles(bs: seq<Block>, lo: nat, hi: nat)
    requires Tiles(bs, lo, hi) && bs != []
    ensures Tiles(bs[1..], bs[0].end, hi)
  {
    assert Piece(bs, 0, hi);
    forall k | 0 <= k < |bs[1..]| ensures Piece(bs[1..], k, hi) {
      assert Piece(bs, k + 1, hi);
    }
  }

  /** The layout is a function of the live blocks: nothing else is remembered by the heap. */
  lemma {:induction false} LayoutIsDeterminedByLiveBlocks(a: seq<Block>, b: seq<Block>, lo: nat, hi: nat)
    requires Tiles(a, lo, hi) && Tiles(b, lo, hi)
    requires Coalesced(a) && Coalesced(b)
    requires Live(a) == Live(b)
    ensures a == b
    decreases |a|
  {
    AllApart(a, lo, hi);
    AllApart(b, lo, hi);
    if a == [] || b == [] {
      assert a == [] && b == [];
    } else {
      SameHead(a, b, lo, hi);
      assert a == [a[0]] + a[1..] && b == [b[0]] + b[1..];
      TailTiles(a, lo, hi);
      TailTiles(b, lo, hi);
      TailLive(a, lo, hi);
      TailLive(b, lo, hi);
      TailCoalesced(a);
      TailCoalesced(b);
      LayoutIsDeterminedByLiveBlocks(a[1..], b[1..], a[0].end, hi);
    }
  }

  lemma TailCoalesced(a: seq<Block>)
    requires Coalesced(a) && a != []
    ensures Coalesced(a[1..])
  {
    forall k | 0 < k < |a[1..]| ensures Parted(a[1..], k) {
      assert Parted(a, k + 1);
    }
  }

  lemma TailLive(a: seq<Block>, lo: nat, hi: nat)
    requires Tiles(a, lo, hi) && a != []
    ensures Live(a[1..]) == Live(a) - {a[0]}
  {
    AllApart(a, lo, hi);
    assert a == [a[0]] + a[1..];
  }

  /** The first free block ends where the first live block begins, in both layouts. */
  lemma SameHead(a: seq<Block>, b: seq<Block>, lo: nat, hi: nat)
    requires Tiles(a, lo, hi) && Tiles(b, lo, hi) && a != [] && b != []
    requires Coalesced(a) && Coalesced(b)
    requires Live(a) == Live(b)
    ensures a[0] == b[0]
  {
    AllApart(a, lo, hi);
    AllApart(b, lo, hi);
    if a[0].used {
      assert a[0] in Live(b);
    } else if b[0].used {
      assert b[0] in Live(a);
    } else {
      NoShorter(a, b, lo, hi);
      NoShorter(b, a, lo, hi);
    }
  }

  lemma NoShorter(a: seq<Block>, b: seq<Block>, lo: nat, hi: nat)
    requires Tiles(a, lo, hi) && Tiles(b, lo, hi) && a != [] && b != []
    requires Coalesced(a) && Live(a) == Live(b) && !a[0].used && !b[0].used
    ensures b[0].end <= a[0].end
  {
    AllApart(a, lo, hi);
    AllApart(b, lo, hi);
    assert Piece(a, 0, hi);
    if |a| > 1 {
      assert Parted(a, 1);
      assert a[1].used && a[1] in Live(a);
      assert a[1] in Live(b);
    }
  }

  /** With nothing live the heap is one free block again. */
  lemma NothingLive(bs: seq<Block>, hi: nat)
    requires Tiles(bs, 0, hi) && Coalesced(bs) && hi >= SZ && Live(bs) == {}
    ensures bs == [Block(0, hi, false)]
  {
    var one := [Block(0, hi, false)];
    assert Piece(one, 0, hi);
    LayoutIsDeterminedByLiveBlocks(bs, one, 0, hi);
  }

  // ----- Sums over the blocks -----

  ghost function Total(bs: seq<Block>, weigh: Block -> int): int {
    if bs == [] then 0 else weigh(bs[0]) + Total(bs[1..], weigh)
  }

  lemma {:induction false} TotalSplit(a: seq<Block>, b: seq<Block>, weigh: Block -> int)
    ensures Total(a + b, weigh) == Total(a, weigh) + Total(b, weigh)
  {
    if a == [] {
      assert a + b == b;
    } else {
      assert (a + b)[1..] == a[1..] + b;
      TotalSplit(a[1..], b, weigh);
    }
  }

  lemma TotalReplace(bs: seq<Block>, i: nat, j: nat, mid: seq<Block>, weigh: Block -> int)
    requires i <= j <= |bs|
    ensures Total(Splice(bs, i, j, mid), weigh) == Total(bs, weigh) - Total(bs[i..j], weigh) + Total(mid, weigh)
  {
    assert bs == bs[..i] + bs[i..j] + bs[j..];
    TotalSplit(bs[..i] + bs[i..j], bs[j..], weigh);
    TotalSplit(bs[..i], bs[i..j], weigh);
    TotalSplit(bs[..i] + mid, bs[j..], weigh);
    TotalSplit(bs[..i], mid, weigh);
  }

  lemma TotalOne(b: Block, weigh: Block -> int)
    ensures Total([b], weigh) == weigh(b)
  {
    assert Total([b][1..], weigh) == 0;
  }

  lemma TotalRange(bs: seq<Block>, i: nat, m: nat, j: nat, weigh: Block -> int)
    requires i <= m <= j <= |bs|
    ensures Total(bs[i..j], weigh) == Total(bs[i..m], weigh) + Total(bs[m..j], weigh)
  {
    assert bs[i..j] == bs[i..m] + bs[m..j];
    TotalSplit(bs[i..m], bs[m..j], weigh);
  }

  lemma TotalAt(bs: seq<Block>, k: nat, weigh: Block -> int)
    requires k < |bs|
    ensures Total(bs[k..k + 1], weigh) == weigh(bs[k])
  {
    assert bs[k..k + 1] == [bs[k]];
    TotalOne(bs[k], weigh);
  }

  lemma TotalTwo(a: Block, b: Block, weigh: Block -> int)
    ensures Total([a, b], weigh) == weigh(a) + weigh(b)
  {
    assert [a, b] == [a] + [b];
    TotalSplit([a], [b], weigh);
    TotalOne(a, weigh);
    TotalOne(b, weigh);
  }

  // ----- Replacing blocks -----

  ghost function Splice(bs: seq<Block>, i: nat, j: nat, mid: seq<Block>): seq<Block>
    requires i <= j <= |bs|
  {
    bs[..i] + mid + bs[j..]
  }

  lemma SpliceTiles(bs: seq<Block>, i: nat, j: nat, mid: seq<Block>, hi: nat)
    requires Tiles(bs, 0, hi) && i < j <= |bs| && mid != []
    requires Tiles(mid, bs[i].start, bs[j - 1].end)
    ensures Tiles(Splice(bs, i, j, mid), 0, hi)
  {
    var r := Splice(bs, i, j, mid);
    var d := |mid| - (j - i);
    assert Piece(mid, 0, bs[j - 1].end);
    assert r[0] == if i == 0 then mid[0] else bs[0];
    forall k | 0 <= k < |r| ensures Piece(r, k, hi) {
      if k < i {
        assert Piece(bs, k, hi);
        assert r[k] == bs[k];
        assert k + 1 < i ==> r[k + 1] == bs[k + 1];
      } else if k < i + |mid| {
        assert Piece(mid, k - i, bs[j - 1].end) && Piece(bs, j - 1, hi);
        assert r[k] == mid[k - i];
        assert k + 1 < i + |mid| ==> r[k + 1] == mid[k + 1 - i];
        assert k + 1 >= i + |mid| && k + 1 < |r| ==> r[k + 1] == bs[k + 1 - d];
      } else {
        assert Piece(bs, k - d, hi);
        assert r[k] == bs[k - d];
        assert k + 1 < |r| ==> r[k + 1] == bs[k + 1 - d];
      }
    }
  }

  lemma SpliceMembers(bs: seq<Block>, i: nat, j: nat, mid: seq<Block>)
    requires i <= j <= |bs|
    ensures forall b :: b in Splice(bs, i, j, mid) ==> b in bs || b in mid
    ensures forall b :: b in bs ==> b in Splice(bs, i, j, mid) || b in bs[i..j]
    ensures forall b :: b in mid ==> b in Splice(bs, i, j, mid)
  {
    assert bs == bs[..i] + bs[i..j] + bs[j..];
    var r := Splice(bs, i, j, mid);
    forall b | b in bs ensures b in r || b in bs[i..j] {
      assert b in bs[..i] || b in bs[i..j] || b in bs[j..];
    }
  }

  /** No two free neighbours, except that block k may have free neighbours. */
  ghost predicate CoalescedBut(bs: seq<Block>, k: int) {
    forall i {:trigger Parted(bs, i)} :: 0 < i < |bs| && i != k && i != k + 1 ==> Parted(bs, i)
  }

  lemma NeighboursUsed(bs: seq<Block>, k: nat)
    requires k < |bs| && CoalescedBut(bs, k)
    requires k > 0 ==> bs[k - 1].used || bs[k].used
    requires k + 1 < |bs| ==> bs[k].used || bs[k + 1].used
    ensures Coalesced(bs)
  {
    forall i | 0 < i < |bs| ensures Parted(bs, i) {
    }
  }

  /** What replacing block k does to the live blocks. */
  lemma ReplaceLive(bs: seq<Block>, k: nat, mid: seq<Block>, hi: nat)
    requires Tiles(bs, 0, hi) && k < |bs|
    ensures Live(Splice(bs, k, k + 1, mid)) == Live(bs) - {bs[k]} + Live(mid)
  {
    var r := Splice(bs, k, k + 1, mid);
    SpliceMembers(bs, k, k + 1, mid);
    assert bs[k..k + 1] == [bs[k]];
    AllApart(bs, 0, hi);
    assert Live(r) == Live(bs) - {bs[k]} + Live(mid);
  }

  lemma TwoApart(bs: seq<Block>, hi: nat, i: nat, j: nat)
    requires Tiles(bs, 0, hi) && i < |bs| && j < |bs| && i != j
    ensures bs[i].end <= bs[j].start || bs[j].end <= bs[i].start
    ensures bs[i].start + SZ <= bs[i].end <= hi && bs[j].start + SZ <= bs[j].end <= hi
  {
    AllApart(bs, 0, hi);
  }

  /** What replacing blocks i to j does to the live blocks. */
  lemma ReplaceLiveRange(bs: seq<Block>, i: nat, j: nat, mid: seq<Block>, hi: nat)
    requires Tiles(bs, 0, hi) && i < j <= |bs|
    ensures Live(Splice(bs, i, j, mid)) == Live(bs) - Live(bs[i..j]) + Live(mid)
  {
    var r := Splice(bs, i, j, mid);
    SpliceMembers(bs, i, j, mid);
    AllApart(bs, 0, hi);
    forall b | b in bs[..i] || b in bs[j..] ensures b !in bs[i..j] {
      if b in bs[..i] {
        var k :| 0 <= k < i && bs[k] == b;
      } else {
        var k :| 0 <= k < |bs[j..]| && bs[j..][k] == b;
        assert bs[j + k] == b;
      }
    }
    assert Live(r) == Live(bs) - Live(bs[i..j]) + Live(mid);
  }

  /** Neighbours stay parted when blocks i to j give way to blocks that fit between theirs. */
  lemma SpliceCoalesced(bs: seq<Block>, i: nat, j: nat, mid: seq<Block>)
    requires Coalesced(bs) && Coalesced(mid) && i < j <= |bs| && mid != []
    requires i > 0 ==> bs[i - 1].used || mid[0].used
    requires j < |bs| ==> mid[|mid| - 1].used || bs[j].used
    ensures Coalesced(Splice(bs, i, j, mid))
  {
    var r := Splice(bs, i, j, mid);
    var d := |mid| - (j - i);
    forall k | 0 < k < |r| ensures Parted(r, k) {
      if k < i {
        assert Parted(bs, k);
      } else if i < k < i + |mid| {
        assert Parted(mid, k - i);
      } else if k > i + |mid| {
        assert Parted(bs, k - d);
      }
    }
  }

  // ----- Contents -----

  /** The words of every listed block behind its header are the same in both heaps. */
  ghost predicate KeepsPayloads(s: seq<int>, t: seq<int>, live: set<Block>, header: nat) {
    && |s| == |t|
    && forall b, i {:trigger b in live, t[i]} ::
         b in live && b.start + header <= i < b.end && 0 <= i < |s| ==> t[i] == s[i]
  }
}
